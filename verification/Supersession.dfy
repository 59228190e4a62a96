/** Repeated application of an operator that turns larger sets into smaller ones. */
module AntitoneRounds {
  ghost predicate Antitone<T(!new)>(f: set<T> -> set<T>) {
    forall s, t :: s <= t ==> f(t) <= f(s)
  }

  function Rounds<T>(f: set<T> -> set<T>, k: nat): set<T> {
    if k == 0 then {} else f(Rounds(f, k - 1))
  }

  lemma {:induction false} Squeezed<T(!new)>(f: set<T> -> set<T>, x: set<T>, k: nat)
    requires Antitone(f) && f(x) == x
    ensures if k % 2 == 0 then Rounds(f, k) <= x else x <= Rounds(f, k)
  {
    if k > 0 { Squeezed(f, x, k - 1); }
  }

  /** Once a round repeats, its result is the only fixed point. */
  lemma StableIsOnlyFixed<T(!new)>(f: set<T> -> set<T>, k: nat)
    requires Antitone(f) && Rounds(f, k + 1) == Rounds(f, k)
    ensures f(Rounds(f, k)) == Rounds(f, k) && forall x :: f(x) == x ==> x == Rounds(f, k)
  {
    forall x | f(x) == x ensures x == Rounds(f, k) {
      Squeezed(f, x, k);
      Squeezed(f, x, k + 1);
    }
  }

  lemma {:induction false} Alternating<T(!new)>(f: set<T> -> set<T>, k: nat)
    requires Antitone(f)
    ensures if k % 2 == 0 then Rounds(f, k) <= Rounds(f, k + 1) else Rounds(f, k + 1) <= Rounds(f, k)
    ensures if k % 2 == 0 then Rounds(f, k) <= Rounds(f, k + 2) else Rounds(f, k + 2) <= Rounds(f, k)
  {
    if k > 0 { Alternating(f, k - 1); }
  }

  /** What two neighbouring rounds disagree about. */
  function Gap<T>(f: set<T> -> set<T>, k: nat): set<T> {
    if k % 2 == 0 then Rounds(f, k + 1) - Rounds(f, k) else Rounds(f, k) - Rounds(f, k + 1)
  }

  lemma NoDifference<T>(a: set<T>, b: set<T>)
    requires a <= b && b - a == {}
    ensures a == b
  {
    assert forall x :: x in b && x !in a ==> x in b - a;
  }

  lemma SameDifference<T>(a: set<T>, c: set<T>, b: set<T>)
    ensures a <= b && c <= b && b - a == b - c ==> a == c
    ensures b <= a && b <= c && a - b == c - b ==> a == c
  {
    if a <= b && c <= b && b - a == b - c {
      assert a == b - (b - a) && c == b - (b - c);
    }
    if b <= a && b <= c && a - b == c - b {
      assert a == b + (a - b) && c == b + (c - b);
    }
  }

  lemma GapEmpty<T(!new)>(f: set<T> -> set<T>, k: nat)
    requires Antitone(f)
    ensures Gap(f, k) == {} <==> Rounds(f, k + 1) == Rounds(f, k)
  {
    Alternating(f, k);
    if Gap(f, k) == {} {
      if k % 2 == 0 { NoDifference(Rounds(f, k), Rounds(f, k + 1)); } else { NoDifference(Rounds(f, k + 1), Rounds(f, k)); }
    }
  }

  /** Gaps are nested; one that does not shrink means that the rounds swing between two sets. */
  lemma GapShrinks<T(!new)>(f: set<T> -> set<T>, k: nat)
    requires Antitone(f)
    ensures Gap(f, k + 1) <= Gap(f, k)
    ensures Gap(f, k + 1) == Gap(f, k) ==> Rounds(f, k + 2) == Rounds(f, k)
  {
    Alternating(f, k);
    Alternating(f, k + 1);
    SameDifference(Rounds(f, k), Rounds(f, k + 2), Rounds(f, k + 1));
  }

  lemma SubsetCard<T>(a: set<T>, b: set<T>)
    requires a <= b
    ensures |a| <= |b| && (|a| == |b| ==> a == b)
  {
    assert b == a + (b - a);
    assert |b| == |a| + |b - a|;
  }

  predicate Stalled<T(==)>(f: set<T> -> set<T>, j: nat) {
    Rounds(f, j + 2) == Rounds(f, j) && Gap(f, j) != {}
  }

  predicate Ended<T(==)>(f: set<T> -> set<T>, j: nat) { Gap(f, j) == {} || Stalled(f, j) }

  /** The gap closes or stalls within as many rounds as the first round has members. */
  lemma {:induction false} ClosesOrStalls<T(!new)>(f: set<T> -> set<T>, k: nat)
    requires Antitone(f)
    ensures (exists j :: 0 <= j < k && Ended(f, j)) || |Gap(f, k)| + k <= |f({})|
  {
    if k == 0 {
      assert Rounds(f, 1) == f({});
      assert Gap(f, 0) == f({});
    } else {
      ClosesOrStalls(f, k - 1);
      if !exists j :: 0 <= j < k && Ended(f, j) {
        assert !Ended(f, k - 1);
        GapShrinks(f, k - 1);
        SubsetCard(Gap(f, k), Gap(f, k - 1));
      }
    }
  }
}

/** Which resolution decisions are in force: the latest version of each, less those that a decision
    in force supersedes. */
module Supersession {
  import opened Common
  import opened AntitoneRounds

  type Id = nat

  datatype Action = Merge(group: Id) | ManualLink(group: Id) | ManualBlock | Unmerge | Reject

  datatype Decision = Decision(id: Id, version: int, action: Action, members: set<Id>, supersedes: Option<Id>,
                               effectiveAt: int, recordedAt: int)

  /** Who supersedes whom: an entry per known decision, its target possibly unknown. */
  type Edges = map<Id, Option<Id>>

  function EdgesOf(latest: map<Id, Decision>): Edges { map d | d in latest :: latest[d].supersedes }

  predicate Supersedes(edges: Edges, superseded: set<Id>, d: Id, target: Id) {
    d in edges && d !in superseded && edges[d] == Some(target)
  }

  predicate Overruled(edges: Edges, superseded: set<Id>, target: Id) {
    exists d :: d in edges && Supersedes(edges, superseded, d, target)
  }

  /** What the decisions outside `superseded` point at. */
  function Next(edges: Edges, superseded: set<Id>): set<Id> {
    set d | d in edges && d !in superseded && edges[d].Some? :: edges[d].value
  }

  function Operator(edges: Edges): set<Id> -> set<Id> { s => Next(edges, s) }

  /** An id is superseded exactly when some decision in force points at it. */
  predicate Fixed(edges: Edges, superseded: set<Id>) { Next(edges, superseded) == superseded }

  ghost predicate ExactlyOneFixed(edges: Edges) {
    exists s :: Fixed(edges, s) && forall t :: Fixed(edges, t) ==> t == s
  }

  /** `result` holds exactly what the decisions outside `s` point at. */
  ghost predicate Gives(edges: Edges, s: set<Id>, result: set<Id>) {
    forall t {:trigger Overruled(edges, s, t)} :: t in result <==> Overruled(edges, s, t)
  }

  lemma NextGives(edges: Edges, s: set<Id>)
    ensures Gives(edges, s, Next(edges, s))
  {
    forall t ensures t in Next(edges, s) <==> Overruled(edges, s, t) {
      if t in Next(edges, s) {
        var d :| d in edges && d !in s && edges[d].Some? && edges[d].value == t;
        assert Supersedes(edges, s, d, t);
      }
    }
  }

  lemma GivesIsNext(edges: Edges, s: set<Id>, result: set<Id>)
    requires Gives(edges, s, result)
    ensures Next(edges, s) == result
  {
    NextGives(edges, s);
    forall t ensures t in Next(edges, s) <==> t in result {
      assert Overruled(edges, s, t) || !Overruled(edges, s, t);
    }
  }

  lemma OperatorIsAntitone(edges: Edges)
    ensures Antitone(Operator(edges))
  {
    forall s: set<Id>, t: set<Id> | s <= t ensures Operator(edges)(t) <= Operator(edges)(s) {
      forall x | x in Next(edges, t) ensures x in Next(edges, s) {
        var d :| d in edges && d !in t && edges[d].Some? && edges[d].value == x;
        assert d !in s;
      }
    }
  }

  // ---------------------------------------------------------------- a stalled gap is a set of cycles

  /** Two sets the operator swaps, one inside the other. */
  ghost predicate Swing(edges: Edges, low: set<Id>, high: set<Id>) {
    low < high && Gives(edges, low, high) && Gives(edges, high, low)
  }

  /** Every id in `ring` is a known decision that points into it, and no two point at the same. */
  predicate Ring(edges: Edges, ring: set<Id>) {
    && (forall d :: d in ring ==> d in edges && edges[d].Some? && edges[d].value in ring)
    && (forall d, e :: d in ring && e in ring && edges[d] == edges[e] ==> d == e)
  }

  predicate PointedAt(edges: Edges, pointers: set<Id>, t: Id) {
    exists d :: d in pointers && d in edges && edges[d] == Some(t)
  }

  /** The members of a gap that point into it. */
  function Inward(edges: Edges, ring: set<Id>): set<Id> {
    set d | d in ring && d in edges && edges[d].Some? && edges[d].value in ring
  }

  lemma SwingIsCovered(edges: Edges, low: set<Id>, high: set<Id>)
    requires Swing(edges, low, high)
    ensures forall t :: t in high - low ==> PointedAt(edges, Inward(edges, high - low), t)
  {
    forall t | t in high - low ensures PointedAt(edges, Inward(edges, high - low), t) {
      assert Overruled(edges, low, t) && !Overruled(edges, high, t);
      var d :| d in edges && Supersedes(edges, low, d, t);
      assert !Supersedes(edges, high, d, t);
      assert d in Inward(edges, high - low);
    }
  }

  /** A set cannot have more members than decisions that point at them, one target each. */
  lemma {:induction false} CoveredNoLarger(edges: Edges, pointers: set<Id>, ring: set<Id>)
    requires forall t :: t in ring ==> PointedAt(edges, pointers, t)
    ensures |ring| <= |pointers|
    decreases ring
  {
    if ring != {} {
      var t :| t in ring;
      var d :| d in pointers && d in edges && edges[d] == Some(t);
      forall u | u in ring - {t} ensures PointedAt(edges, pointers - {d}, u) {
        var e :| e in pointers && e in edges && edges[e] == Some(u);
        assert e in pointers - {d};
      }
      CoveredNoLarger(edges, pointers - {d}, ring - {t});
    }
  }

  lemma SwingIsRing(edges: Edges, low: set<Id>, high: set<Id>)
    requires Swing(edges, low, high)
    ensures Ring(edges, high - low)
  {
    SwingIsCovered(edges, low, high);
    CoveredIsRing(edges, high - low);
  }

  lemma CoveredIsRing(edges: Edges, ring: set<Id>)
    requires forall t :: t in ring ==> PointedAt(edges, Inward(edges, ring), t)
    ensures Ring(edges, ring)
  {
    var p := Inward(edges, ring);
    CoveredNoLarger(edges, p, ring);
    SubsetCard(p, ring);
    forall d, e | d in ring && e in ring && edges[d] == edges[e] ensures d == e {
      if d != e { Redundant(edges, p, ring, d, e); }
    }
  }

  /** Two pointers at the same target leave one to spare. */
  lemma Redundant(edges: Edges, pointers: set<Id>, ring: set<Id>, d: Id, e: Id)
    requires forall t :: t in ring ==> PointedAt(edges, pointers, t)
    requires d in pointers && e in pointers && d in edges && e in edges && d != e && edges[d] == edges[e]
    ensures |ring| < |pointers|
  {
    forall t | t in ring ensures PointedAt(edges, pointers - {e}, t) {
      var x :| x in pointers && x in edges && edges[x] == Some(t);
      assert (if x == e then d else x) in pointers - {e};
    }
    CoveredNoLarger(edges, pointers - {e}, ring);
  }

  /** A fixed point between the two sets, turned over inside the gap. */
  function Flip(low: set<Id>, high: set<Id>, f: set<Id>): set<Id> { low + (high - low - f) }

  lemma FlippedIsOverruled(edges: Edges, low: set<Id>, high: set<Id>, f: set<Id>, t: Id)
    requires Swing(edges, low, high) && Gives(edges, f, f) && low <= f <= high && t in Flip(low, high, f)
    ensures Overruled(edges, Flip(low, high, f), t)
  {
    if t in low {
      assert Overruled(edges, high, t);
      var d :| d in edges && Supersedes(edges, high, d, t);
      assert Supersedes(edges, Flip(low, high, f), d, t);
    } else {
      assert Overruled(edges, low, t) && !Overruled(edges, f, t);
      var d :| d in edges && Supersedes(edges, low, d, t);
      assert !Supersedes(edges, f, d, t);
      assert Supersedes(edges, Flip(low, high, f), d, t);
    }
  }

  lemma OverruledIsFlipped(edges: Edges, low: set<Id>, high: set<Id>, f: set<Id>, t: Id)
    requires Swing(edges, low, high) && Ring(edges, high - low) && Gives(edges, f, f) && low <= f <= high
    requires Overruled(edges, Flip(low, high, f), t)
    ensures t in Flip(low, high, f)
  {
    var d :| d in edges && Supersedes(edges, Flip(low, high, f), d, t);
    assert Supersedes(edges, low, d, t) && Overruled(edges, low, t);
    if t !in low {
      OnlyPointer(edges, low, high, d, t);
      assert forall e :: Supersedes(edges, f, e, t) ==> Supersedes(edges, low, e, t);
      assert !Overruled(edges, f, t);
    }
  }

  lemma OnlyPointer(edges: Edges, low: set<Id>, high: set<Id>, d: Id, t: Id)
    requires Swing(edges, low, high) && Ring(edges, high - low) && t !in low && Supersedes(edges, low, d, t)
    ensures d in high && forall e :: Supersedes(edges, low, e, t) ==> e == d
  {
    assert !Overruled(edges, high, t);
    forall e | Supersedes(edges, low, e, t) ensures e in high {
      assert !Supersedes(edges, high, e, t);
    }
  }

  lemma Flipped(edges: Edges, low: set<Id>, high: set<Id>, f: set<Id>)
    requires Swing(edges, low, high) && Gives(edges, f, f) && low <= f <= high
    ensures Gives(edges, Flip(low, high, f), Flip(low, high, f))
  {
    SwingIsRing(edges, low, high);
    forall t ensures t in Flip(low, high, f) <==> Overruled(edges, Flip(low, high, f), t) {
      if t in Flip(low, high, f) { FlippedIsOverruled(edges, low, high, f, t); }
      if Overruled(edges, Flip(low, high, f), t) { OverruledIsFlipped(edges, low, high, f, t); }
    }
  }

  lemma SwingIsNotUnique(edges: Edges, low: set<Id>, high: set<Id>)
    requires Swing(edges, low, high) && forall f :: Fixed(edges, f) ==> low <= f <= high
    ensures !ExactlyOneFixed(edges)
  {
    forall f | Fixed(edges, f) ensures exists g :: Fixed(edges, g) && g != f { AnotherFixed(edges, low, high, f); }
  }

  lemma BetweenRounds(edges: Edges, f: set<Id>, j: nat)
    requires Fixed(edges, f)
    ensures var x, y := Rounds(Operator(edges), j), Rounds(Operator(edges), j + 1); x <= f <= y || y <= f <= x
  {
    OperatorIsAntitone(edges);
    assert Operator(edges)(f) == f;
    Squeezed(Operator(edges), f, j);
    Squeezed(Operator(edges), f, j + 1);
  }

  lemma AnotherFixed(edges: Edges, low: set<Id>, high: set<Id>, f: set<Id>)
    requires Swing(edges, low, high) && Fixed(edges, f) && low <= f <= high
    ensures exists g :: Fixed(edges, g) && g != f
  {
    NextGives(edges, f);
    Flipped(edges, low, high, f);
    GivesIsNext(edges, Flip(low, high, f), Flip(low, high, f));
    assert Fixed(edges, Flip(low, high, f));
    FlipDiffers(low, high, f);
  }

  lemma FlipDiffers(low: set<Id>, high: set<Id>, f: set<Id>)
    requires low < high
    ensures Flip(low, high, f) != f
  {
    var t :| t in high && t !in low;
    assert t in f <==> t !in Flip(low, high, f);
  }

  lemma FirstRoundNoLarger(edges: Edges)
    ensures |Next(edges, {})| <= |edges|
  {
    forall t | t in Next(edges, {}) ensures PointedAt(edges, edges.Keys, t) {
      var d :| d in edges && d !in {} && edges[d].Some? && edges[d].value == t;
      assert d in edges.Keys;
    }
    CoveredNoLarger(edges, edges.Keys, Next(edges, {}));
  }

  predicate SettledBy(edges: Edges, k: nat) { Rounds(Operator(edges), k + 1) == Rounds(Operator(edges), k) }

  lemma UnsettledStalls(edges: Edges) returns (j: nat)
    requires !exists k :: 0 <= k <= |edges| && SettledBy(edges, k)
    ensures Stalled(Operator(edges), j)
  {
    var op := Operator(edges);
    OperatorIsAntitone(edges);
    FirstRoundNoLarger(edges);
    ClosesOrStalls(op, |edges|);
    GapEmpty(op, |edges|);
    assert !SettledBy(edges, |edges|);
    j :| 0 <= j < |edges| && Ended(op, j);
    GapEmpty(op, j);
    assert !SettledBy(edges, j);
  }

  lemma SwapSwings(edges: Edges, low: set<Id>, high: set<Id>)
    requires low <= high && low != high && Next(edges, low) == high && Next(edges, high) == low
    ensures Swing(edges, low, high)
  {
    NextGives(edges, low);
    NextGives(edges, high);
  }

  lemma RoundAfter(edges: Edges, k: nat)
    ensures Rounds(Operator(edges), k + 1) == Next(edges, Rounds(Operator(edges), k))
  {
  }

  /** Rounds that never settle come to swing between two sets, with every fixed point between them. */
  lemma UnsettledSwings(edges: Edges) returns (low: set<Id>, high: set<Id>)
    requires !exists k :: 0 <= k <= |edges| && SettledBy(edges, k)
    ensures Swing(edges, low, high) && forall f :: Fixed(edges, f) ==> low <= f <= high
  {
    var j := UnsettledStalls(edges);
    var op := Operator(edges);
    OperatorIsAntitone(edges);
    Alternating(op, j);
    GapEmpty(op, j);
    RoundAfter(edges, j);
    RoundAfter(edges, j + 1);
    low, high := Rounds(op, j), Rounds(op, j + 1);
    if !(low <= high) { low, high := high, low; }
    SwapSwings(edges, low, high);
    forall f | Fixed(edges, f) ensures low <= f <= high { BetweenRounds(edges, f, j); }
  }

  lemma SettledIsTheOnlyFixed(edges: Edges, k: nat)
    requires SettledBy(edges, k)
    ensures Fixed(edges, Rounds(Operator(edges), k)) && forall f :: Fixed(edges, f) ==> f == Rounds(Operator(edges), k)
  {
    OperatorIsAntitone(edges);
    StableIsOnlyFixed(Operator(edges), k);
    forall f | Fixed(edges, f) ensures f == Rounds(Operator(edges), k) { assert Operator(edges)(f) == f; }
  }

  /** The rounds settle within one more than the number of decisions exactly when there is exactly
      one answer. */
  lemma SettlesExactlyWhenUnique(edges: Edges)
    ensures (exists k :: 0 <= k <= |edges| && SettledBy(edges, k)) <==> ExactlyOneFixed(edges)
  {
    if k :| 0 <= k <= |edges| && SettledBy(edges, k) {
      SettledIsTheOnlyFixed(edges, k);
    } else {
      var low, high := UnsettledSwings(edges);
      SwingIsNotUnique(edges, low, high);
    }
  }

  // ---------------------------------------------------------------- cycles

  predicate Link(edges: Edges, a: Id, b: Id) { a in edges && edges[a] == Some(b) }

  predicate Walk(edges: Edges, w: seq<Id>) { forall i :: 0 <= i < |w| - 1 ==> Link(edges, w[i], w[i + 1]) }

  ghost predicate Acyclic(edges: Edges) { forall w :: Walk(edges, w) && |w| >= 2 ==> w[0] != w[|w| - 1] }

  lemma {:induction false} Follow(edges: Edges, ring: set<Id>, d: Id, n: nat) returns (w: seq<Id>)
    requires Ring(edges, ring) && d in ring
    ensures |w| == n + 1 && Walk(edges, w) && forall i :: 0 <= i < |w| ==> w[i] in ring
  {
    if n == 0 {
      w := [d];
    } else {
      var v := Follow(edges, ring, d, n - 1);
      assert v[n - 1] in ring;
      w := v + [edges[v[n - 1]].value];
      forall i | 0 <= i < |w| - 1 ensures Link(edges, w[i], w[i + 1]) {
        assert i < n - 1 ==> Link(edges, v[i], v[i + 1]);
      }
    }
  }

  predicate Repeats(w: seq<Id>, i: int, j: int) { 0 <= i < j < |w| && w[i] == w[j] }

  lemma {:induction false} Pigeonhole(w: seq<Id>, holes: set<Id>) returns (i: int, j: int)
    requires |w| > |holes| && forall k :: 0 <= k < |w| ==> w[k] in holes
    ensures Repeats(w, i, j)
    decreases |w|
  {
    var last, rest := w[|w| - 1], w[..|w| - 1];
    if k :| 0 <= k < |rest| && rest[k] == last {
      i, j := k, |w| - 1;
    } else {
      assert forall k :: 0 <= k < |rest| ==> rest[k] == w[k] && rest[k] in holes - {last};
      i, j := Pigeonhole(rest, holes - {last});
    }
  }

  lemma PartOfWalk(edges: Edges, w: seq<Id>, i: nat, j: nat)
    requires Walk(edges, w) && i < j < |w|
    ensures Walk(edges, w[i..j + 1])
  {
    var v := w[i..j + 1];
    forall k | 0 <= k < |v| - 1 ensures Link(edges, v[k], v[k + 1]) {
      assert Link(edges, w[i + k], w[i + k + 1]);
    }
  }

  lemma RingHasLoop(edges: Edges, ring: set<Id>) returns (loop: seq<Id>)
    requires Ring(edges, ring) && ring != {}
    ensures Walk(edges, loop) && |loop| >= 2 && loop[0] == loop[|loop| - 1]
  {
    var w := LongWalk(edges, ring);
    var i, j := Pigeonhole(w, ring);
    PartOfWalk(edges, w, i, j);
    loop := w[i..j + 1];
    Ends(w, i, j);
  }

  lemma LongWalk(edges: Edges, ring: set<Id>) returns (w: seq<Id>)
    requires Ring(edges, ring) && ring != {}
    ensures Walk(edges, w) && |w| > |ring| && forall k :: 0 <= k < |w| ==> w[k] in ring
  {
    var d :| d in ring;
    w := Follow(edges, ring, d, |ring|);
  }

  lemma Ends(w: seq<Id>, i: int, j: int)
    requires Repeats(w, i, j)
    ensures |w[i..j + 1]| >= 2 && w[i..j + 1][0] == w[i..j + 1][|w[i..j + 1]| - 1]
  {
  }

  lemma RingIsCyclic(edges: Edges, ring: set<Id>)
    requires Ring(edges, ring) && ring != {}
    ensures !Acyclic(edges)
  {
    var loop := RingHasLoop(edges, ring);
  }

  /** Every graph without cycles, dangling targets included, has exactly one answer. */
  lemma AcyclicSettles(edges: Edges)
    requires Acyclic(edges)
    ensures ExactlyOneFixed(edges)
  {
    SettlesExactlyWhenUnique(edges);
    if !ExactlyOneFixed(edges) {
      var low, high := UnsettledSwings(edges);
      SwingIsCyclic(edges, low, high);
    }
  }

  lemma SwingIsCyclic(edges: Edges, low: set<Id>, high: set<Id>)
    requires Swing(edges, low, high)
    ensures !Acyclic(edges)
  {
    SwingIsRing(edges, low, high);
    var t :| t in high && t !in low;
    assert t in high - low;
    RingIsCyclic(edges, high - low);
  }

  const CUT_CYCLE: Edges := map[1 := Some(2), 2 := Some(1), 3 := Some(1)]
  const TWO_CYCLE: Edges := map[1 := Some(2), 2 := Some(1)]
  const THREE_CYCLE: Edges := map[1 := Some(2), 2 := Some(3), 3 := Some(1)]

  /** Not every cycle fails: one that a decision in force cuts into still has exactly one answer. */
  lemma CutCycleSettles()
    ensures !Acyclic(CUT_CYCLE) && ExactlyOneFixed(CUT_CYCLE) && Fixed(CUT_CYCLE, {1})
  {
    assert Link(CUT_CYCLE, 1, 2) && Link(CUT_CYCLE, 2, 1);
    assert Walk(CUT_CYCLE, [1, 2, 1]);
    var op := Operator(CUT_CYCLE);
    assert Next(CUT_CYCLE, {}) == {1, 2} by { assert CUT_CYCLE[1].value == 2 && CUT_CYCLE[2].value == 1; }
    assert Next(CUT_CYCLE, {1, 2}) == {1} by { assert CUT_CYCLE[3].value == 1; }
    assert Next(CUT_CYCLE, {1}) == {1} by { assert CUT_CYCLE[3].value == 1; }
    assert Rounds(op, 1) == op(Rounds(op, 0)) && Rounds(op, 2) == op(Rounds(op, 1)) && Rounds(op, 3) == op(Rounds(op, 2));
    assert SettledBy(CUT_CYCLE, 2);
    SettledIsTheOnlyFixed(CUT_CYCLE, 2);
  }

  /** Two decisions that supersede each other have two answers, three in a circle have none: the
      rounds settle on neither. */
  lemma BareCyclesFail()
    ensures !ExactlyOneFixed(TWO_CYCLE) && !ExactlyOneFixed(THREE_CYCLE)
  {
    assert Next(TWO_CYCLE, {1}) == {1} by { assert TWO_CYCLE[2].value == 1; }
    assert Next(TWO_CYCLE, {2}) == {2} by { assert TWO_CYCLE[1].value == 2; }
    assert Fixed(TWO_CYCLE, {1}) && Fixed(TWO_CYCLE, {2}) && {1} != {2};
    forall f ensures !Fixed(THREE_CYCLE, f) { RoundTheCircle(f); }
  }

  lemma RoundTheCircle(f: set<Id>)
    ensures 2 in Next(THREE_CYCLE, f) <==> 1 !in f
    ensures 3 in Next(THREE_CYCLE, f) <==> 2 !in f
    ensures 1 in Next(THREE_CYCLE, f) <==> 3 !in f
  {
    assert THREE_CYCLE[1].value == 2 && THREE_CYCLE[2].value == 3 && THREE_CYCLE[3].value == 1;
  }

  // ---------------------------------------------------------------- superseding one decision more

  /** The graph with a new decision `x` that supersedes `target`. */
  function With(edges: Edges, x: Id, target: Id): Edges { edges[x := Some(target)] }

  /** The graph in which `target` was never made; others may still point at it. */
  function Erased(edges: Edges, target: Id): Edges { edges - {target} }

  predicate Unknown(edges: Edges, x: Id) { x !in edges && forall d :: d in edges ==> edges[d] != Some(x) }

  lemma NextWith(edges: Edges, s: set<Id>, x: Id, target: Id)
    requires x !in edges && x !in s && target in s
    ensures Next(With(edges, x, target), s) == Next(Erased(edges, target), s) + {target}
  {
    var more, less := With(edges, x, target), Erased(edges, target);
    assert x in more && more[x] == Some(target);
    forall t | t in Next(more, s) && t != target ensures t in Next(less, s) {
      var d :| d in more && d !in s && more[d].Some? && more[d].value == t;
      assert d in less && less[d] == more[d];
    }
    forall t | t in Next(less, s) ensures t in Next(more, s) {
      var d :| d in less && d !in s && less[d].Some? && less[d].value == t;
      assert d in more && more[d] == less[d];
    }
  }

  /** Where a decision is not known, it does not matter whether it counts as superseded. */
  lemma NextIgnores(edges: Edges, s: set<Id>, target: Id)
    requires target !in edges
    ensures Next(edges, s + {target}) == Next(edges, s)
  {
    assert forall d :: d in edges ==> (d !in s + {target} <==> d !in s);
  }

  lemma NotPointedAt(edges: Edges, s: set<Id>, x: Id)
    requires forall d :: d in edges ==> edges[d] != Some(x)
    ensures x !in Next(edges, s)
  {
  }

  lemma ErasedAnswers(edges: Edges, g: set<Id>, x: Id, target: Id)
    requires Unknown(edges, x) && x != target && Fixed(Erased(edges, target), g)
    ensures Fixed(With(edges, x, target), g + {target})
  {
    NotPointedAt(Erased(edges, target), g, x);
    NextWith(edges, g + {target}, x, target);
    NextIgnores(Erased(edges, target), g, target);
  }

  lemma AnswersErased(edges: Edges, f: set<Id>, x: Id, target: Id)
    requires Unknown(edges, x) && x != target && Fixed(With(edges, x, target), f)
    ensures var g := Next(Erased(edges, target), f); Fixed(Erased(edges, target), g) && f == g + {target}
  {
    var more, less := With(edges, x, target), Erased(edges, target);
    NotPointedAt(more, f, x);
    assert x in more && more[x] == Some(target);
    assert target in Next(more, f);
    NextWith(edges, f, x, target);
    var g := Next(less, f);
    NextIgnores(less, g, target);
  }

  ghost predicate Adds(edges: Edges, f: set<Id>, target: Id) {
    exists g :: Fixed(edges, g) && f == g + {target}
  }

  /** Superseding any decision at all, whatever it supersedes itself and whoever supersedes it: the
      answers are those of the graph in which it was never made, with it added. So what it kept out
      comes back, and one graph has a single answer exactly when the other has. */
  lemma SupersedingTakesOutOne(edges: Edges, x: Id, target: Id)
    requires Unknown(edges, x) && x != target
    ensures forall f :: Fixed(With(edges, x, target), f) <==> Adds(Erased(edges, target), f, target)
    ensures ExactlyOneFixed(With(edges, x, target)) <==> ExactlyOneFixed(Erased(edges, target))
  {
    var more, less := With(edges, x, target), Erased(edges, target);
    forall f | Fixed(more, f) ensures Adds(less, f, target) { AnswersErased(edges, f, x, target); }
    forall g | Fixed(less, g) ensures Fixed(more, g + {target}) { ErasedAnswers(edges, g, x, target); }
    if ExactlyOneFixed(less) { OneMoreAnswer(edges, x, target); }
    if ExactlyOneFixed(more) { OneAnswerLess(edges, x, target); }
  }

  lemma OneMoreAnswer(edges: Edges, x: Id, target: Id)
    requires Unknown(edges, x) && x != target && ExactlyOneFixed(Erased(edges, target))
    ensures ExactlyOneFixed(With(edges, x, target))
  {
    var more, less := With(edges, x, target), Erased(edges, target);
    var g :| Fixed(less, g);
    ErasedAnswers(edges, g, x, target);
    forall f | Fixed(more, f) ensures f == g + {target} { AnswersErased(edges, f, x, target); }
  }

  lemma OneAnswerLess(edges: Edges, x: Id, target: Id)
    requires Unknown(edges, x) && x != target && ExactlyOneFixed(With(edges, x, target))
    ensures ExactlyOneFixed(Erased(edges, target))
  {
    var more, less := With(edges, x, target), Erased(edges, target);
    var f :| Fixed(more, f);
    AnswersErased(edges, f, x, target);
    forall g | Fixed(less, g) ensures g == Next(less, f) {
      ErasedAnswers(edges, g, x, target);
      NextIgnores(less, g, target);
    }
  }

  /** In a chain where c supersedes b and b supersedes a, a is in force again; superseding c brings b
      back and takes a out. */
  lemma ChainRestores(a: Id, b: Id, c: Id, x: Id)
    requires a != b && b != c && a != c && x != a && x != b && x != c
    ensures var chain: Edges := map[a := None, b := Some(a), c := Some(b)];
            && ExactlyOneFixed(chain) && Fixed(chain, {b})
            && ExactlyOneFixed(With(chain, x, c)) && Fixed(With(chain, x, c), {a, c})
  {
    var alone: Edges, pair: Edges := map[a := None], map[a := None, b := Some(a)];
    var chain: Edges := map[a := None, b := Some(a), c := Some(b)];
    assert Erased(pair, b) == alone && With(pair, c, b) == chain && Erased(chain, c) == pair;
    assert forall s :: Next(alone, s) == {};
    assert Fixed(alone, {});
    SupersedingTakesOutOne(pair, c, b);
    ErasedAnswers(pair, {}, c, b);
    assert {} + {b} == {b};
    PairSettles(a, b);
    SupersedingTakesOutOne(chain, x, c);
    ErasedAnswers(chain, {a}, x, c);
    assert {a} + {c} == {a, c};
  }

  lemma PairSettles(a: Id, b: Id)
    requires a != b
    ensures var pair: Edges := map[a := None, b := Some(a)]; ExactlyOneFixed(pair) && Fixed(pair, {a})
  {
    var alone: Edges, pair: Edges := map[a := None], map[a := None, b := Some(a)];
    assert Erased(alone, a) == map[] && With(alone, b, a) == pair;
    assert forall s :: Next(map[], s) == {};
    assert Fixed(map[], {});
    SupersedingTakesOutOne(alone, b, a);
    ErasedAnswers(alone, {}, b, a);
    assert {} + {a} == {a};
  }

  // ---------------------------------------------------------------- the decisions in force

  /** The highest version of each decision, the first of equals. */
  function Latest(decisions: seq<Decision>): map<Id, Decision> {
    if decisions == [] then map[]
    else
      var before, d := Latest(decisions[..|decisions| - 1]), decisions[|decisions| - 1];
      if d.id !in before || d.version > before[d.id].version then before[d.id := d] else before
  }

  lemma {:induction false} LatestIsHighest(decisions: seq<Decision>)
    ensures forall d :: d in decisions ==> d.id in Latest(decisions) && d.version <= Latest(decisions)[d.id].version
    ensures forall i :: i in Latest(decisions) ==> Latest(decisions)[i] in decisions && Latest(decisions)[i].id == i
  {
    if decisions != [] { LatestIsHighest(decisions[..|decisions| - 1]); }
  }

  predicate IsHighest(decisions: seq<Decision>, d: Decision) {
    d in decisions && forall c :: c in decisions && c.id == d.id ==> c.version <= d.version
  }

  /** Decisions of one id that share its highest version are equal. */
  predicate HighestUnique(decisions: seq<Decision>) {
    forall d, e :: d in decisions && e in decisions && d.id == e.id && IsHighest(decisions, d) && IsHighest(decisions, e) ==> d == e
  }

  /** Then only what was decided counts, not the order it came in nor how often. */
  lemma LatestIgnoresOrder(a: seq<Decision>, b: seq<Decision>)
    requires HighestUnique(a) && forall d :: d in a <==> d in b
    ensures Latest(a) == Latest(b)
  {
    LatestIsHighest(a);
    LatestIsHighest(b);
    SameHighest(a, b, Latest(a), Latest(b));
  }

  /** The highest versions among the decisions, by id. */
  ghost predicate Highest(decisions: seq<Decision>, latest: map<Id, Decision>) {
    && (forall d :: d in decisions ==> d.id in latest && d.version <= latest[d.id].version)
    && (forall i :: i in latest ==> latest[i] in decisions && latest[i].id == i)
  }

  lemma SameHighest(a: seq<Decision>, b: seq<Decision>, m: map<Id, Decision>, n: map<Id, Decision>)
    requires HighestUnique(a) && (forall d :: d in a <==> d in b) && Highest(a, m) && Highest(b, n)
    ensures m == n
  {
    forall i | i in m ensures i in n && m[i] == n[i] {
      assert m[i] in b && n[i] in a;
      assert IsHighest(a, m[i]) && IsHighest(a, n[i]);
    }
    forall i | i in n ensures i in m {
      assert n[i] in a;
    }
  }

  ghost predicate Reordered(a: seq<Decision>, b: seq<Decision>) { multiset(a) == multiset(b) }

  ghost predicate OrderIrrelevant(decisions: seq<Decision>) {
    forall b :: Reordered(decisions, b) ==> Latest(b) == Latest(decisions)
  }

  /** The exact condition: every order gives the same latest decisions exactly when no two different
      decisions share the highest version of their id. */
  lemma OrderIrrelevantExactlyWhen(decisions: seq<Decision>)
    ensures OrderIrrelevant(decisions) <==> HighestUnique(decisions)
  {
    if HighestUnique(decisions) {
      forall b | Reordered(decisions, b) ensures Latest(b) == Latest(decisions) {
        assert forall d :: (d in decisions <==> d in multiset(decisions)) && (d in b <==> d in multiset(b));
        LatestIgnoresOrder(decisions, b);
      }
    } else {
      var d, e :| d in decisions && e in decisions && d.id == e.id && IsHighest(decisions, d) && IsHighest(decisions, e) && d != e;
      var one := Foremost(decisions, d);
      var other := Foremost(decisions, e);
      assert Latest(one) != Latest(other);
    }
  }

  /** Putting a decision of the highest version first makes it the latest. */
  lemma Foremost(decisions: seq<Decision>, d: Decision) returns (b: seq<Decision>)
    requires IsHighest(decisions, d)
    ensures Reordered(decisions, b) && d.id in Latest(b) && Latest(b)[d.id] == d
  {
    var i :| 0 <= i < |decisions| && decisions[i] == d;
    b := [d] + (decisions[..i] + decisions[i + 1..]);
    assert decisions == decisions[..i] + [d] + decisions[i + 1..];
    FirstHighestStays(d, decisions[..i] + decisions[i + 1..]);
  }

  lemma {:induction false} FirstHighestStays(d: Decision, rest: seq<Decision>)
    requires forall c :: c in rest && c.id == d.id ==> c.version <= d.version
    ensures d.id in Latest([d] + rest) && Latest([d] + rest)[d.id] == d
  {
    if rest == [] {
      assert [d] + rest == [d] && [d][..0] == [];
    } else {
      var init := rest[..|rest| - 1];
      assert ([d] + rest)[..|rest|] == [d] + init;
      FirstHighestStays(d, init);
    }
  }

  datatype Effective = Effective(inForce: seq<Decision>, superseded: set<Id>)
  datatype ReplayError = SupersessionCycle

  /** The decisions that take part in a replay: the latest versions that nothing in force supersedes. */
  ghost predicate InForce(latest: map<Id, Decision>, superseded: set<Id>, list: seq<Decision>) {
    && (forall d :: d in list <==> d.id in latest && latest[d.id] == d && d.id !in superseded)
    && (forall i, j :: 0 <= i < j < |list| ==> list[i].id != list[j].id)
  }

  /** A dictionary in the order its keys came in. */
  ghost predicate Keyed(latest: map<Id, Decision>, order: seq<Id>) {
    && (forall i :: i in order <==> i in latest)
    && (forall i, j :: 0 <= i < j < |order| ==> order[i] != order[j])
    && (forall i :: i in latest ==> latest[i].id == i)
  }

  method LatestVersions(decisions: seq<Decision>) returns (latest: map<Id, Decision>, order: seq<Id>)
    ensures latest == Latest(decisions) && Keyed(latest, order) && |order| == |latest|
  {
    latest, order := map[], [];
    for k := 0 to |decisions|
      invariant latest == Latest(decisions[..k]) && Keyed(latest, order) && |order| == |latest|
    {
      assert decisions[..k + 1][..k] == decisions[..k];
      var d := decisions[k];
      if d.id !in latest {
        order := order + [d.id];
        latest := latest[d.id := d];
      } else if d.version > latest[d.id].version {
        assert (latest[d.id := d]).Keys == latest.Keys;
        assert |latest[d.id := d]| == |latest|;
        latest := latest[d.id := d];
      }
    }
    assert decisions[..|decisions|] == decisions;
  }

  method NotSuperseded(latest: map<Id, Decision>, order: seq<Id>, superseded: set<Id>) returns (list: seq<Decision>)
    requires Keyed(latest, order)
    ensures InForce(latest, superseded, list)
  {
    list := [];
    for k := 0 to |order|
      invariant forall d :: d in list <==> d.id in order[..k] && latest[d.id] == d && d.id !in superseded
      invariant forall i, j :: 0 <= i < j < |list| ==> list[i].id != list[j].id
    {
      assert order[..k + 1] == order[..k] + [order[k]];
      if order[k] !in superseded { list := list + [latest[order[k]]]; }
    }
    assert order[..|order|] == order;
  }

  method PointedAtBy(list: seq<Decision>) returns (targets: set<Id>)
    ensures forall t :: t in targets <==> exists d :: d in list && d.supersedes == Some(t)
  {
    targets := {};
    for k := 0 to |list|
      invariant forall t :: t in targets <==> exists d :: d in list[..k] && d.supersedes == Some(t)
    {
      assert list[..k + 1] == list[..k] + [list[k]];
      if list[k].supersedes.Some? { targets := targets + {list[k].supersedes.value}; }
    }
    assert list[..|list|] == list;
  }

  method NextRound(latest: map<Id, Decision>, order: seq<Id>, superseded: set<Id>, ghost k: nat)
    returns (list: seq<Decision>, next: set<Id>)
    requires Keyed(latest, order) && superseded == Rounds(Operator(EdgesOf(latest)), k)
    ensures InForce(latest, superseded, list)
    ensures next == Rounds(Operator(EdgesOf(latest)), k + 1)
    ensures next == superseded <==> SettledBy(EdgesOf(latest), k)
  {
    list := NotSuperseded(latest, order, superseded);
    next := PointedAtBy(list);
    RoundIsNext(latest, superseded, list, next);
  }

  ghost predicate SettlesOn(edges: Edges, bound: nat, s: set<Id>) {
    exists k :: 0 <= k <= bound && SettledBy(edges, k) && s == Rounds(Operator(edges), k)
  }

  ghost predicate Unsettled(edges: Edges, bound: nat) { forall k :: 0 <= k < bound ==> !SettledBy(edges, k) }

  lemma UnsettledStill(edges: Edges, k: nat)
    requires Unsettled(edges, k) && !SettledBy(edges, k)
    ensures Unsettled(edges, k + 1)
  {
    forall j | 0 <= j < k + 1 ensures !SettledBy(edges, j) {
      if j != k { assert j < k; }
    }
  }

  /** Rounds of the operator, one more than there are decisions, until one repeats. */
  method Settle(latest: map<Id, Decision>, order: seq<Id>) returns (r: Result<Effective, ReplayError>)
    requires Keyed(latest, order)
    ensures r.Ok? ==> InForce(latest, r.value.superseded, r.value.inForce)
    ensures r.Ok? ==> SettlesOn(EdgesOf(latest), |order|, r.value.superseded)
    ensures r.Err? ==> Unsettled(EdgesOf(latest), |order| + 1)
  {
    ghost var edges := EdgesOf(latest);
    var superseded: set<Id> := {};
    for k := 0 to |order| + 1
      invariant superseded == Rounds(Operator(edges), k)
      invariant Unsettled(edges, k)
    {
      var list, next := NextRound(latest, order, superseded, k);
      if next == superseded {
        assert SettlesOn(edges, |order|, superseded);
        return Ok(Effective(list, superseded));
      }
      UnsettledStill(edges, k);
      superseded := next;
    }
    r := Err(SupersessionCycle);
  }

  /** It returns exactly when supersession has exactly one answer, and returns that one; on everything
      else it fails. */
  method EffectiveDecisions(decisions: seq<Decision>) returns (r: Result<Effective, ReplayError>)
    ensures r.Ok? <==> ExactlyOneFixed(EdgesOf(Latest(decisions)))
    ensures r.Ok? ==> Fixed(EdgesOf(Latest(decisions)), r.value.superseded)
    ensures r.Ok? ==> InForce(Latest(decisions), r.value.superseded, r.value.inForce)
  {
    var latest, order := LatestVersions(decisions);
    ghost var edges := EdgesOf(latest);
    SameSize(latest);
    r := Settle(latest, order);
    SettlesExactlyWhenUnique(edges);
    if r.Ok? {
      ghost var k :| 0 <= k <= |order| && SettledBy(edges, k) && r.value.superseded == Rounds(Operator(edges), k);
      SettledIsTheOnlyFixed(edges, k);
    }
  }

  lemma SameSize(latest: map<Id, Decision>)
    ensures |EdgesOf(latest)| == |latest|
  {
    assert EdgesOf(latest).Keys == latest.Keys;
  }

  lemma RoundIsNext(latest: map<Id, Decision>, superseded: set<Id>, list: seq<Decision>, next: set<Id>)
    requires InForce(latest, superseded, list) && forall i :: i in latest ==> latest[i].id == i
    requires forall t :: t in next <==> exists d :: d in list && d.supersedes == Some(t)
    ensures Next(EdgesOf(latest), superseded) == next
  {
    var edges := EdgesOf(latest);
    forall t ensures t in Next(edges, superseded) <==> t in next {
      if t in Next(edges, superseded) {
        var i :| i in edges && i !in superseded && edges[i].Some? && edges[i].value == t;
        assert latest[i] in list;
      }
      if t in next {
        var d :| d in list && d.supersedes == Some(t);
        assert d.id in edges && edges[d.id] == Some(t);
      }
    }
  }
}
