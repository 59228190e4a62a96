/** Masking a segment before translation, and checking that its placeholders survived. */
module Preservation {
  import opened Common
  import opened TagPairs
  import opened Chunking
  import opened Placeholders

  datatype Kind = InlineTag | ProtectedBlock | Url | Email | Glossary | Date | Amount

  /** A match found in the plain text; a glossary match brings the form it is translated to. */
  datatype Candidate = Candidate(start: nat, end: nat, kind: Kind, target: string)

  datatype Placeholder = Placeholder(id: nat, kind: Kind, source: string, replacement: string)

  datatype Masked = Masked(text: string, sourceHtml: string, placeholders: seq<Placeholder>, tagPairs: seq<Pair>)

  // ---------------------------------------------------------------- escaping

  function EscapeChar(c: char): string {
    if c == '&' then "&amp;" else if c == '<' then "&lt;" else if c == '>' then "&gt;" else [c]
  }

  function Escape(text: string): string {
    if text == "" then "" else Escape(text[..|text| - 1]) + EscapeChar(text[|text| - 1])
  }

  lemma {:induction false} EscapedHasNoAngle(text: string)
    ensures NoAngle(Escape(text))
  {
    if text != "" { EscapedHasNoAngle(text[..|text| - 1]); }
  }

  lemma {:induction false} EscapeConcat(a: string, b: string)
    ensures Escape(a + b) == Escape(a) + Escape(b)
  {
    if b == "" {
      assert a + b == a;
    } else {
      var front, last := b[..|b| - 1], b[|b| - 1];
      assert (a + b)[..|a + b| - 1] == a + front;
      EscapeConcat(a, front);
      Regroup(Escape(a), Escape(front), EscapeChar(last));
    }
  }

  // ---------------------------------------------------------------- claiming spans

  predicate Apart(a: Candidate, b: Candidate) { a.end <= b.start || b.end <= a.start }

  /** The candidates that get their text: each one that is not empty and overlaps no earlier one. */
  function Claimed(candidates: seq<Candidate>): seq<Candidate> {
    if candidates == [] then []
    else
      var earlier, c := Claimed(candidates[..|candidates| - 1]), candidates[|candidates| - 1];
      if c.start < c.end && forall s :: s in earlier ==> Apart(s, c) then earlier + [c] else earlier
  }

  lemma {:induction false} ClaimedApart(candidates: seq<Candidate>)
    ensures forall s :: s in Claimed(candidates) ==> s in candidates && s.start < s.end
    ensures forall i, j :: 0 <= i < j < |Claimed(candidates)| ==> Apart(Claimed(candidates)[i], Claimed(candidates)[j])
  {
    if candidates != [] {
      var init, c := candidates[..|candidates| - 1], candidates[|candidates| - 1];
      ClaimedApart(init);
      assert candidates == init + [c];
      if Claimed(candidates) != Claimed(init) { OneMoreApart(Claimed(init), c); }
    }
  }

  lemma OneMoreApart(spans: seq<Candidate>, c: Candidate)
    requires forall i, j :: 0 <= i < j < |spans| ==> Apart(spans[i], spans[j])
    requires forall s :: s in spans ==> Apart(s, c)
    ensures forall i, j :: 0 <= i < j < |spans + [c]| ==> Apart((spans + [c])[i], (spans + [c])[j])
  {
    forall i, j | 0 <= i < j < |spans + [c]| ensures Apart((spans + [c])[i], (spans + [c])[j]) {
      assert spans[i] in spans;
    }
  }

  ghost predicate InBounds(candidates: seq<Candidate>, length: nat) {
    forall i :: 0 <= i < |candidates| ==> candidates[i].start <= candidates[i].end <= length
  }

  /** The byte map of taken positions answers the overlap question without looking at the spans. */
  method ClaimSpans(length: nat, candidates: seq<Candidate>) returns (spans: seq<Candidate>)
    requires InBounds(candidates, length)
    ensures spans == Claimed(candidates)
  {
    var taken := new bool[length](_ => false);
    spans := [];
    for k := 0 to |candidates|
      invariant spans == Claimed(candidates[..k])
      invariant forall m :: 0 <= m < length ==> (taken[m] <==> Covered(spans, m))
    {
      var c := candidates[k];
      assert candidates[..k + 1][..k] == candidates[..k];
      ClaimedApart(candidates[..k]);
      FreeIsApart(spans, c);
      if c.start < c.end && !exists m :: c.start <= m < c.end && taken[m] {
        ghost var before := spans;
        for m := c.start to c.end
          invariant forall j :: 0 <= j < length ==> (taken[j] <==> Covered(before, j) || c.start <= j < m)
        {
          taken[m] := true;
        }
        spans := spans + [c];
        assert forall m :: Covered(spans, m) <==> Covered(before, m) || c.start <= m < c.end;
      }
    }
    assert candidates[..|candidates|] == candidates;
  }

  ghost predicate Covered(spans: seq<Candidate>, m: int) {
    exists s :: s in spans && s.start <= m < s.end
  }

  lemma FreeIsApart(spans: seq<Candidate>, c: Candidate)
    requires forall s :: s in spans ==> s.start < s.end
    ensures c.start < c.end ==>
      ((exists m :: c.start <= m < c.end && Covered(spans, m)) <==> !forall s :: s in spans ==> Apart(s, c))
  {
    if c.start < c.end {
      if m :| c.start <= m < c.end && Covered(spans, m) {
        var s :| s in spans && s.start <= m < s.end;
        assert !Apart(s, c);
      }
      if s :| s in spans && !Apart(s, c) {
        var m := if s.start < c.start then c.start else s.start;
        assert c.start <= m < c.end && Covered(spans, m);
      }
    }
  }

  predicate InOrder(spans: seq<Candidate>) {
    && (forall i :: 0 <= i < |spans| ==> spans[i].start < spans[i].end)
    && (forall i, j :: 0 <= i < j < |spans| ==> spans[i].end <= spans[j].start)
  }

  function Inserted(sorted: seq<Candidate>, span: Candidate): seq<Candidate> {
    if sorted == [] || span.start <= sorted[0].start then [span] + sorted
    else [sorted[0]] + Inserted(sorted[1..], span)
  }

  /** The spans in the order of their starts. */
  function Sorted(spans: seq<Candidate>): seq<Candidate> {
    if spans == [] then [] else Inserted(Sorted(spans[..|spans| - 1]), spans[|spans| - 1])
  }

  lemma {:induction false} InsertedHolds(sorted: seq<Candidate>, span: Candidate)
    ensures multiset(Inserted(sorted, span)) == multiset(sorted) + multiset{span}
  {
    if !(sorted == [] || span.start <= sorted[0].start) {
      InsertedHolds(sorted[1..], span);
      assert sorted == [sorted[0]] + sorted[1..];
    }
  }

  lemma {:induction false} InsertedInOrder(sorted: seq<Candidate>, span: Candidate)
    requires InOrder(sorted) && span.start < span.end && forall i :: 0 <= i < |sorted| ==> Apart(sorted[i], span)
    ensures InOrder(Inserted(sorted, span))
    ensures forall i :: 0 <= i < |Inserted(sorted, span)| ==> FromEither(sorted, span, Inserted(sorted, span)[i])
  {
    if sorted == [] || span.start <= sorted[0].start {
      forall i | 0 <= i < |sorted| ensures span.end <= sorted[i].start { assert sorted[0].end <= sorted[i].end; }
      HeadInOrder(span, sorted);
    } else {
      var first, rest := sorted[0], sorted[1..];
      InsertedInOrder(rest, span);
      var more := Inserted(rest, span);
      forall i | 0 <= i < |more| ensures first.end <= more[i].start && FromEither(sorted, span, more[i]) {
        assert FromEither(rest, span, more[i]);
      }
      HeadInOrder(first, more);
    }
  }

  predicate FromEither(sorted: seq<Candidate>, span: Candidate, c: Candidate) {
    c == span || exists i :: 0 <= i < |sorted| && sorted[i] == c
  }

  lemma HeadInOrder(first: Candidate, rest: seq<Candidate>)
    requires first.start < first.end && InOrder(rest) && forall i :: 0 <= i < |rest| ==> first.end <= rest[i].start
    ensures InOrder([first] + rest)
  {
  }

  lemma {:induction false} SortedInOrder(spans: seq<Candidate>)
    requires forall s :: s in spans ==> s.start < s.end
    requires forall i, j :: 0 <= i < j < |spans| ==> Apart(spans[i], spans[j])
    ensures InOrder(Sorted(spans)) && multiset(Sorted(spans)) == multiset(spans)
  {
    if spans != [] {
      var init, last := spans[..|spans| - 1], spans[|spans| - 1];
      SortedInOrder(init);
      assert spans == init + [last];
      var sorted := Sorted(init);
      forall i | 0 <= i < |sorted| ensures Apart(sorted[i], last) {
        assert sorted[i] in multiset(sorted);
        assert sorted[i] in init;
      }
      InsertedInOrder(sorted, last);
      InsertedHolds(sorted, last);
    }
  }

  method SortSpans(spans: seq<Candidate>) returns (sorted: seq<Candidate>)
    ensures sorted == Sorted(spans)
  {
    sorted := [];
    for k := 0 to |spans|
      invariant sorted == Sorted(spans[..k])
    {
      assert spans[..k + 1][..k] == spans[..k];
      sorted := InsertSpan(sorted, spans[k]);
    }
    assert spans[..|spans|] == spans;
  }

  method InsertSpan(sorted: seq<Candidate>, span: Candidate) returns (more: seq<Candidate>)
    ensures more == Inserted(sorted, span)
  {
    var n := 0;
    assert sorted[..0] == [] && sorted[0..] == sorted;
    while n < |sorted| && sorted[n].start < span.start
      invariant n <= |sorted| && Inserted(sorted, span) == sorted[..n] + Inserted(sorted[n..], span)
    {
      InsertFurther(sorted, span, n);
      n := n + 1;
    }
    more := sorted[..n] + [span] + sorted[n..];
  }

  lemma InsertFurther(sorted: seq<Candidate>, span: Candidate, n: nat)
    requires n < |sorted| && sorted[n].start < span.start
    ensures sorted[..n] + Inserted(sorted[n..], span) == sorted[..n + 1] + Inserted(sorted[n + 1..], span)
  {
    assert sorted[n..][1..] == sorted[n + 1..];
    assert sorted[..n + 1] == sorted[..n] + [sorted[n]];
    Regroup(sorted[..n], [sorted[n]], Inserted(sorted[n + 1..], span));
  }

  // ---------------------------------------------------------------- masking

  function Between(text: string, a: nat, b: nat): string { if a <= b <= |text| then text[a..b] else "" }

  function Replacement(plain: string, c: Candidate): string {
    if c.kind.Glossary? then c.target else Between(plain, c.start, c.end)
  }

  /** A step taken for the first `n` items in turn. */
  function Folded<S, A>(step: (S, A) -> S, start: S, items: seq<A>, n: nat): S
    requires n <= |items|
    decreases n
  {
    if n == 0 then start else step(Folded(step, start, items, n - 1), items[n - 1])
  }

  /** What both steps keep, any number of them keeps. */
  lemma {:induction false} FoldsKeep<S(!new), T(!new), A(!new)>(inv: (S, T) -> bool, f: (S, A) -> S, g: (T, A) -> T, s: S, t: T, items: seq<A>, n: nat)
    requires inv(s, t) && n <= |items| && forall a, b, x :: inv(a, b) ==> inv(f(a, x), g(b, x))
    ensures inv(Folded(f, s, items, n), Folded(g, t, items, n))
    decreases n
  {
    if n > 0 { FoldsKeep(inv, f, g, s, t, items, n - 1); }
  }

  lemma {:induction false} FoldGrows<S(!new), A(!new)>(rel: (S, S) -> bool, f: (S, A) -> S, s: S, items: seq<A>, j: nat, n: nat)
    requires j <= n <= |items| && (forall a :: rel(a, a)) && forall a, b, x :: rel(a, b) ==> rel(a, f(b, x))
    ensures rel(Folded(f, s, items, j), Folded(f, s, items, n))
    decreases n
  {
    if j < n { FoldGrows(rel, f, s, items, j, n - 1); }
  }

  /** The text so far with each glossary span in its target form, and where it ends. */
  datatype Target = Target(text: string, end: nat)

  function TargetStep(plain: string): (Target, Candidate) -> Target {
    (t: Target, span: Candidate) => Target(t.text + TargetOf(plain, t.end, span), span.end)
  }

  function WithTargets(plain: string, spans: seq<Candidate>): string {
    var t := Folded(TargetStep(plain), Target("", 0), spans, |spans|);
    t.text + Between(plain, t.end, |plain|)
  }

  /** The text between two spans, and the second of them. */
  function TargetOf(plain: string, from: nat, span: Candidate): string {
    Between(plain, from, span.start) + Replacement(plain, span)
  }

  predicate Ahead(plain: string, spans: seq<Candidate>, from: nat) {
    && InOrder(spans) && from <= |plain|
    && forall i :: 0 <= i < |spans| ==> from <= spans[i].start && spans[i].end <= |plain|
  }

  /** The text from a position on, with glossary terms in their target form and everything else as it is. */
  function Substituted(plain: string, spans: seq<Candidate>, from: nat): string
    requires Ahead(plain, spans, from)
    decreases |spans|
  {
    if spans == [] then plain[from..]
    else
      var span := spans[0];
      assert span.start < span.end;
      plain[from..span.start] + (if span.kind.Glossary? then span.target else plain[span.start..span.end])
        + Substituted(plain, spans[1..], span.end)
  }

  predicate SubstitutedTo(plain: string, t: Target, rest: seq<Candidate>, whole: string) {
    Ahead(plain, rest, t.end) && t.text + Substituted(plain, rest, t.end) == whole
  }

  lemma OneSubstituted(plain: string, t: Target, rest: seq<Candidate>, whole: string)
    requires rest != [] && SubstitutedTo(plain, t, rest, whole)
    ensures SubstitutedTo(plain, Target(t.text + TargetOf(plain, t.end, rest[0]), rest[0].end), rest[1..], whole)
  {
    assert rest[0].start < rest[0].end;
    assert Ahead(plain, rest[1..], rest[0].end);
    Regroup(t.text, TargetOf(plain, t.end, rest[0]), Substituted(plain, rest[1..], rest[0].end));
  }

  lemma {:induction false} SubstitutedSoFar(plain: string, spans: seq<Candidate>, n: nat)
    requires Ahead(plain, spans, 0) && n <= |spans|
    ensures SubstitutedTo(plain, Folded(TargetStep(plain), Target("", 0), spans, n), spans[n..], Substituted(plain, spans, 0))
    decreases n
  {
    if n == 0 {
      assert spans[0..] == spans;
    } else {
      SubstitutedSoFar(plain, spans, n - 1);
      assert spans[n - 1..][1..] == spans[n..];
      OneSubstituted(plain, Folded(TargetStep(plain), Target("", 0), spans, n - 1), spans[n - 1..], Substituted(plain, spans, 0));
    }
  }

  /** Putting targets in replaces exactly the glossary spans. */
  lemma GlossaryGetsItsTarget(plain: string, spans: seq<Candidate>)
    requires Ahead(plain, spans, 0)
    ensures WithTargets(plain, spans) == Substituted(plain, spans, 0)
  {
    SubstitutedSoFar(plain, spans, |spans|);
    assert spans[|spans|..] == [];
  }

  lemma {:induction false} WithoutGlossary(plain: string, spans: seq<Candidate>, k: nat)
    requires InOrder(spans) && k <= |spans|
    requires forall i :: 0 <= i < |spans| ==> spans[i].end <= |plain| && !spans[i].kind.Glossary?
    ensures PlainTo(plain, spans, k, Folded(TargetStep(plain), Target("", 0), spans, k))
    decreases k
  {
    if k > 0 {
      WithoutGlossary(plain, spans, k - 1);
      var before := Folded(TargetStep(plain), Target("", 0), spans, k - 1);
      PlainStep(plain, spans, k, before, TargetStep(plain)(before, spans[k - 1]));
    }
  }

  /** Nothing has changed up to the end of the first `k` spans. */
  predicate PlainTo(plain: string, spans: seq<Candidate>, k: nat, t: Target) {
    k <= |spans| && t.end == (if k == 0 then 0 else spans[k - 1].end) <= |plain| && t.text == plain[..t.end]
  }

  lemma PlainStep(plain: string, spans: seq<Candidate>, k: nat, before: Target, after: Target)
    requires 0 < k <= |spans| && InOrder(spans) && spans[k - 1].end <= |plain| && !spans[k - 1].kind.Glossary?
    requires PlainTo(plain, spans, k - 1, before) && after == TargetStep(plain)(before, spans[k - 1])
    ensures PlainTo(plain, spans, k, after)
  {
    assert before.end <= spans[k - 1].start;
    PlainTarget(plain, before.end, spans[k - 1], before.text, after.text);
  }

  lemma PlainTarget(plain: string, from: nat, span: Candidate, before: string, after: string)
    requires from <= span.start <= span.end <= |plain| && !span.kind.Glossary?
    requires before == plain[..from] && after == before + TargetOf(plain, from, span)
    ensures after == plain[..span.end]
  {
    ThreeParts(plain, from, span.start, span.end);
  }

  lemma ThreeParts(text: string, a: nat, b: nat, c: nat)
    requires a <= b <= c <= |text|
    ensures text[..a] + (text[a..b] + text[b..c]) == text[..c]
  {
    assert text[a..b] + text[b..c] == text[a..c];
  }

  /** Ids count up from 1, in order of appearance. */
  predicate Numbered(placeholders: seq<Placeholder>) {
    forall k :: 0 <= k < |placeholders| ==> placeholders[k].id == k + 1
  }

  /** The replacement of each id, as a dictionary built in order. */
  function ById(placeholders: seq<Placeholder>): map<nat, string> {
    if placeholders == [] then map[]
    else var last := placeholders[|placeholders| - 1]; ById(placeholders[..|placeholders| - 1])[last.id := last.replacement]
  }

  lemma {:induction false} ByIdNumbered(placeholders: seq<Placeholder>)
    requires Numbered(placeholders)
    ensures forall id :: id in ById(placeholders) <==> 1 <= id <= |placeholders|
    ensures forall id :: id in ById(placeholders) ==> ById(placeholders)[id] == placeholders[id - 1].replacement
  {
    if placeholders != [] {
      ByIdNumbered(placeholders[..|placeholders| - 1]);
    }
  }

  function Range(first: nat, count: nat): (ids: seq<nat>)
    ensures |ids| == count && forall k :: 0 <= k < count ==> ids[k] == first + k
  {
    seq(count, k => first + k)
  }

  predicate HolesKnown(pieces: seq<Piece>, count: nat) {
    forall i :: 0 <= i < |pieces| && pieces[i].Hole? ==> 1 <= pieces[i].id <= count
  }

  function Content(piece: Piece, placeholders: seq<Placeholder>): string
    requires piece.Hole? ==> 1 <= piece.id <= |placeholders|
  {
    if piece.Plain? then piece.text else placeholders[piece.id - 1].replacement
  }

  /** The pieces with every hole filled from the placeholder list. */
  function FillFrom(pieces: seq<Piece>, placeholders: seq<Placeholder>): string
    requires HolesKnown(pieces, |placeholders|)
  {
    if pieces == [] then ""
    else FillFrom(pieces[..|pieces| - 1], placeholders) + Content(pieces[|pieces| - 1], placeholders)
  }

  lemma {:induction false} FillFromMore(pieces: seq<Piece>, placeholders: seq<Placeholder>, more: seq<Placeholder>)
    requires HolesKnown(pieces, |placeholders|) && placeholders <= more
    ensures HolesKnown(pieces, |more|) && FillFrom(pieces, more) == FillFrom(pieces, placeholders)
  {
    if pieces != [] {
      FillFromMore(pieces[..|pieces| - 1], placeholders, more);
    }
  }

  lemma FillFromSnoc(pieces: seq<Piece>, piece: Piece, placeholders: seq<Placeholder>)
    requires HolesKnown(pieces, |placeholders|) && (piece.Hole? ==> 1 <= piece.id <= |placeholders|)
    ensures HolesKnown(pieces + [piece], |placeholders|)
    ensures FillFrom(pieces + [piece], placeholders) == FillFrom(pieces, placeholders) + Content(piece, placeholders)
  {
    assert (pieces + [piece])[..|pieces|] == pieces;
  }

  lemma {:induction false} FillFromIsFilled(pieces: seq<Piece>, placeholders: seq<Placeholder>)
    requires HolesKnown(pieces, |placeholders|) && Numbered(placeholders)
    ensures forall p :: p in pieces && p.Hole? ==> p.id in ById(placeholders)
    ensures Filled(pieces, ById(placeholders)) == FillFrom(pieces, placeholders)
  {
    ByIdNumbered(placeholders);
    FillAgrees(pieces, placeholders, ById(placeholders));
  }

  lemma {:induction false} FillAgrees(pieces: seq<Piece>, placeholders: seq<Placeholder>, byId: map<nat, string>)
    requires HolesKnown(pieces, |placeholders|)
    requires forall id: nat :: 1 <= id <= |placeholders| ==> id in byId && byId[id] == placeholders[id - 1].replacement
    ensures forall p :: p in pieces && p.Hole? ==> p.id in byId
    ensures Filled(pieces, byId) == FillFrom(pieces, placeholders)
  {
    if pieces != [] {
      var front, last := pieces[..|pieces| - 1], pieces[|pieces| - 1];
      assert pieces == front + [last] && last in pieces;
      FillAgrees(front, placeholders, byId);
      FilledOneMore(front, last, byId);
    }
  }

  lemma FilledOneMore(front: seq<Piece>, last: Piece, replacements: map<nat, string>)
    requires forall p :: p in front + [last] && p.Hole? ==> p.id in replacements
    ensures Filled(front + [last], replacements)
         == Filled(front, replacements) + if last.Plain? then last.text else replacements[last.id]
  {
    assert last in front + [last];
    FilledConcat(front, [last], replacements);
    assert [last][1..] == [];
  }

  /** What masking has produced so far: numbered placeholders, one hole each in the same order, and
      the text that filling them gives back. */
  ghost predicate Masking(pieces: seq<Piece>, placeholders: seq<Placeholder>, restored: string) {
    && Escaped(pieces) && Numbered(placeholders)
    && Ids(pieces) == Range(1, |placeholders|)
    && HolesKnown(pieces, |placeholders|)
    && FillFrom(pieces, placeholders) == restored
  }

  lemma AddPlain(pieces: seq<Piece>, placeholders: seq<Placeholder>, restored: string, text: string)
    requires Masking(pieces, placeholders, restored) && NoAngle(text)
    ensures Masking(pieces + [Plain(text)], placeholders, restored + text)
  {
    PiecesConcat(pieces, [Plain(text)]);
    FillFromSnoc(pieces, Plain(text), placeholders);
  }

  lemma AddHole(pieces: seq<Piece>, placeholders: seq<Placeholder>, restored: string, p: Placeholder)
    requires Masking(pieces, placeholders, restored) && p.id == |placeholders| + 1
    ensures Masking(pieces + [Hole(p.id)], placeholders + [p], restored + p.replacement)
  {
    IdsOfHole(pieces, p.id);
    FilledWithHole(pieces, placeholders, p);
    assert Range(1, |placeholders| + 1) == Range(1, |placeholders|) + [p.id];
    assert forall q :: q in pieces + [Hole(p.id)] ==> q in pieces || q == Hole(p.id);
  }

  lemma FilledWithHole(pieces: seq<Piece>, placeholders: seq<Placeholder>, p: Placeholder)
    requires HolesKnown(pieces, |placeholders|) && p.id == |placeholders| + 1
    ensures HolesKnown(pieces + [Hole(p.id)], |placeholders| + 1)
    ensures FillFrom(pieces + [Hole(p.id)], placeholders + [p]) == FillFrom(pieces, placeholders) + p.replacement
  {
    FillFromMore(pieces, placeholders, placeholders + [p]);
    FillFromSnoc(pieces, Hole(p.id), placeholders + [p]);
  }

  lemma IdsOfHole(pieces: seq<Piece>, id: nat)
    ensures Ids(pieces + [Hole(id)]) == Ids(pieces) + [id]
  {
    PiecesConcat(pieces, [Hole(id)]);
    assert [Hole(id)][1..] == [];
  }

  lemma GrowEscaped(restored: string, a: string, b: string)
    ensures restored + Escape(a) + Escape(b) == restored + Escape(a + b)
  {
    EscapeConcat(a, b);
  }

  /** What masking has written: pieces of text and holes, the placeholders for the holes, and how far in
      the present text it has come. */
  datatype Draft = Draft(pieces: seq<Piece>, placeholders: seq<Placeholder>, position: nat)

  const BLANK := Draft([], [], 0)

  function AddText(d: Draft, plain: string): Draft { d.(pieces := d.pieces + [Plain(Escape(plain))]) }

  /** One more placeholder, numbered on, and the hole it fills. */
  function AddPlaceholder(d: Draft, kind: Kind, source: string, replacement: string): Draft {
    var id := |d.placeholders| + 1;
    Draft(d.pieces + [Hole(id)], d.placeholders + [Placeholder(id, kind, source, replacement)], d.position)
  }

  /** The text up to a span, and a placeholder for the span. */
  function SpanDrafted(d: Draft, plain: string, span: Candidate): Draft {
    AddPlaceholder(AddText(d, Between(plain, d.position, span.start)), span.kind, Between(plain, span.start, span.end),
                   Escape(Replacement(plain, span))).(position := span.end)
  }

  function SpanStep(plain: string): (Draft, Candidate) -> Draft {
    (d: Draft, span: Candidate) => SpanDrafted(d, plain, span)
  }

  function TextDrafted(d: Draft, plain: string, spans: seq<Candidate>): Draft {
    var all := Folded(SpanStep(plain), d.(position := 0), spans, |spans|);
    AddText(all, Between(plain, all.position, |plain|))
  }

  lemma TextMasks(d: Draft, restored: string, plain: string)
    requires Masking(d.pieces, d.placeholders, restored)
    ensures Masking(AddText(d, plain).pieces, AddText(d, plain).placeholders, restored + Escape(plain))
  {
    EscapedHasNoAngle(plain);
    AddPlain(d.pieces, d.placeholders, restored, Escape(plain));
  }

  lemma PlaceholderMasks(d: Draft, restored: string, kind: Kind, source: string, replacement: string)
    requires Masking(d.pieces, d.placeholders, restored)
    ensures var more := AddPlaceholder(d, kind, source, replacement); Masking(more.pieces, more.placeholders, restored + replacement)
  {
    AddHole(d.pieces, d.placeholders, restored, Placeholder(|d.placeholders| + 1, kind, source, replacement));
  }

  lemma SpanMasks(d: Draft, restored: string, plain: string, done: string, span: Candidate)
    requires Masking(d.pieces, d.placeholders, restored + Escape(done))
    ensures var after := SpanDrafted(d, plain, span);
            Masking(after.pieces, after.placeholders, restored + Escape(done + TargetOf(plain, d.position, span)))
  {
    var gap, target := Between(plain, d.position, span.start), Replacement(plain, span);
    TextMasks(d, restored + Escape(done), gap);
    PlaceholderMasks(AddText(d, gap), restored + Escape(done) + Escape(gap), span.kind, Between(plain, span.start, span.end), Escape(target));
    GrowTwice(restored, done, gap, target);
  }

  lemma SpansMask(d: Draft, restored: string, plain: string, spans: seq<Candidate>)
    requires Masking(d.pieces, d.placeholders, restored) && d.position == 0
    ensures var all, t := Folded(SpanStep(plain), d, spans, |spans|), Folded(TargetStep(plain), Target("", 0), spans, |spans|);
            Masking(all.pieces, all.placeholders, restored + Escape(t.text)) && all.position == t.end
  {
    var inv := (e: Draft, t: Target) => Masking(e.pieces, e.placeholders, restored + Escape(t.text)) && e.position == t.end;
    forall e: Draft, t: Target, span: Candidate | inv(e, t) ensures inv(SpanStep(plain)(e, span), TargetStep(plain)(t, span)) {
      SpanMasks(e, restored, plain, t.text, span);
    }
    assert restored + Escape("") == restored;
    FoldsKeep(inv, SpanStep(plain), TargetStep(plain), d, Target("", 0), spans, |spans|);
  }

  lemma GrowTwice(restored: string, a: string, b: string, c: string)
    ensures restored + Escape(a) + Escape(b) + Escape(c) == restored + Escape(a + (b + c))
  {
    GrowEscaped(restored, a, b);
    GrowEscaped(restored, a + b, c);
    Regroup(a, b, c);
  }

  lemma WholeTextMasks(d: Draft, restored: string, plain: string, spans: seq<Candidate>)
    requires Masking(d.pieces, d.placeholders, restored)
    ensures var more := TextDrafted(d, plain, spans);
            Masking(more.pieces, more.placeholders, restored + Escape(WithTargets(plain, spans)))
  {
    var reset := d.(position := 0);
    var all, t := Folded(SpanStep(plain), reset, spans, |spans|), Folded(TargetStep(plain), Target("", 0), spans, |spans|);
    SpansMask(reset, restored, plain, spans);
    var rest := Between(plain, t.end, |plain|);
    TextMasks(all, restored + Escape(t.text), rest);
    GrowEscaped(restored, t.text, rest);
  }

  /** Masks one text token: its claimed spans become placeholders, the rest stays escaped text. */
  method MaskText(plain: string, candidates: seq<Candidate>, d: Draft) returns (more: Draft)
    requires InBounds(candidates, |plain|)
    ensures more == TextDrafted(d, plain, Sorted(Claimed(candidates)))
    ensures var spans := Sorted(Claimed(candidates));
            InOrder(spans) && InBounds(spans, |plain|) && multiset(spans) == multiset(Claimed(candidates))
  {
    var claimed := ClaimSpans(|plain|, candidates);
    var spans := SortSpans(claimed);
    SpansInOrder(plain, candidates);
    more := MaskSpans(plain, spans, d);
  }

  method MaskSpans(plain: string, spans: seq<Candidate>, d: Draft) returns (more: Draft)
    requires InOrder(spans) && forall i :: 0 <= i < |spans| ==> spans[i].end <= |plain|
    ensures more == TextDrafted(d, plain, spans)
  {
    more := d.(position := 0);
    for k := 0 to |spans|
      invariant more == Folded(SpanStep(plain), d.(position := 0), spans, k)
      invariant more.position == (if k == 0 then 0 else spans[k - 1].end) <= |plain|
    {
      assert k > 0 ==> spans[k - 1].end <= spans[k].start;
      more := MaskSpan(plain, spans[k], more);
    }
    assert plain[more.position..] == Between(plain, more.position, |plain|);
    more := AddText(more, plain[more.position..]);
  }

  method MaskSpan(plain: string, span: Candidate, d: Draft) returns (more: Draft)
    requires d.position <= span.start <= span.end <= |plain|
    ensures more == SpanStep(plain)(d, span) && more.position == span.end
  {
    more := AddText(d, plain[d.position..span.start]);
    more := AddPlaceholder(more, span.kind, plain[span.start..span.end],
                           Escape(if span.kind.Glossary? then span.target else plain[span.start..span.end]));
    more := more.(position := span.end);
  }

  /** The spans claimed in a text, in order. */
  lemma SpansInOrder(plain: string, candidates: seq<Candidate>)
    requires InBounds(candidates, |plain|)
    ensures var spans := Sorted(Claimed(candidates));
            InOrder(spans) && InBounds(spans, |plain|) && multiset(spans) == multiset(Claimed(candidates))
  {
    var claimed := Claimed(candidates);
    ClaimedApart(candidates);
    SortedInOrder(claimed);
    var spans := Sorted(claimed);
    forall i | 0 <= i < |spans| ensures spans[i].start <= spans[i].end <= |plain| {
      assert spans[i] in multiset(spans);
      assert spans[i] in claimed && spans[i] in candidates;
    }
  }

  // ---------------------------------------------------------------- a whole segment

  /** How text is unescaped, what the matchers find in it, and which of that is claimed, in order. */
  datatype Reader = Reader(unescape: string -> string, matchers: string -> seq<Candidate>, spans: string -> seq<Candidate>)

  function ReaderOf(unescape: string -> string, matchers: string -> seq<Candidate>): Reader {
    Reader(unescape, matchers, plain => Sorted(Claimed(matchers(plain))))
  }

  ghost predicate Reads(reader: Reader) {
    forall plain {:trigger reader.matchers(plain)} :: InBounds(reader.matchers(plain), |plain|) && reader.spans(plain) == Sorted(Claimed(reader.matchers(plain)))
  }

  function SpansIn(token: Token, reader: Reader): seq<Candidate> { reader.spans(reader.unescape(token.raw)) }

  /** One token: text through the matchers, anything else as one placeholder. */
  function TokenDrafted(d: Draft, token: Token, reader: Reader): Draft {
    match token.kind
    case Text => TextDrafted(d, reader.unescape(token.raw), SpansIn(token, reader))
    case Tag => AddPlaceholder(d, InlineTag, token.raw, token.raw)
    case Protected => AddPlaceholder(d, ProtectedBlock, token.raw, token.raw)
  }

  function TokenStep(reader: Reader): (Draft, Token) -> Draft { (d: Draft, token: Token) => TokenDrafted(d, token, reader) }

  function TokensDrafted(tokens: seq<Token>, reader: Reader, n: nat): Draft
    requires n <= |tokens|
  {
    Folded(TokenStep(reader), BLANK, tokens, n)
  }

  /** What unmasking should give back for one token: text re-escaped with its glossary targets,
      anything else as it was. */
  function RestoredToken(token: Token, reader: Reader): string {
    if token.kind.Text? then Escape(WithTargets(reader.unescape(token.raw), SpansIn(token, reader))) else token.raw
  }

  function RestoredStep(reader: Reader): (string, Token) -> string { (done: string, token: Token) => done + RestoredToken(token, reader) }

  function Restored(tokens: seq<Token>, reader: Reader): string { Folded(RestoredStep(reader), "", tokens, |tokens|) }

  lemma TokenMasks(d: Draft, restored: string, token: Token, reader: Reader)
    requires Masking(d.pieces, d.placeholders, restored)
    ensures var after := TokenDrafted(d, token, reader);
            Masking(after.pieces, after.placeholders, restored + RestoredToken(token, reader))
  {
    match token.kind
    case Text => WholeTextMasks(d, restored, reader.unescape(token.raw), SpansIn(token, reader));
    case Tag => PlaceholderMasks(d, restored, InlineTag, token.raw, token.raw);
    case Protected => PlaceholderMasks(d, restored, ProtectedBlock, token.raw, token.raw);
  }

  lemma TokensMask(tokens: seq<Token>, reader: Reader)
    ensures var all := TokensDrafted(tokens, reader, |tokens|);
            Masking(all.pieces, all.placeholders, Restored(tokens, reader))
  {
    var inv := (e: Draft, done: string) => Masking(e.pieces, e.placeholders, done);
    forall e: Draft, done: string, token: Token | inv(e, done)
      ensures inv(TokenStep(reader)(e, token), RestoredStep(reader)(done, token))
    {
      TokenMasks(e, done, token, reader);
    }
    FoldsKeep(inv, TokenStep(reader), RestoredStep(reader), BLANK, "", tokens, |tokens|);
  }

  /** The id of the placeholder that stands for a tag or protected block. */
  function IdAt(tokens: seq<Token>, reader: Reader, k: nat): nat
    requires k <= |tokens|
  {
    |TokensDrafted(tokens, reader, k).placeholders| + 1
  }

  /** The ids of the tags and protected blocks among the first tokens. */
  function IdsTo(tokens: seq<Token>, reader: Reader, n: nat): map<nat, nat>
    requires n <= |tokens|
    decreases n
  {
    if n == 0 then map[] else NextIds(IdsTo(tokens, reader, n - 1), tokens[n - 1], n - 1, IdAt(tokens, reader, n - 1))
  }

  function NextIds(ids: map<nat, nat>, token: Token, k: nat, id: nat): map<nat, nat> {
    if token.kind.Text? then ids else ids[k := id]
  }

  lemma {:induction false} IdRecorded(tokens: seq<Token>, reader: Reader, n: nat, k: nat)
    requires k < n <= |tokens| && !tokens[k].kind.Text?
    ensures k in IdsTo(tokens, reader, n) && IdsTo(tokens, reader, n)[k] == IdAt(tokens, reader, k)
    decreases n
  {
    if k < n - 1 { IdRecorded(tokens, reader, n - 1, k); }
  }

  predicate Grows(before: Draft, after: Draft) { before.placeholders <= after.placeholders }

  lemma PrefixOnward<T>(a: seq<T>, b: seq<T>, c: seq<T>)
    requires a <= b <= c
    ensures a <= c
  {
  }

  lemma AppendedPrefix<T>(a: seq<T>, b: seq<T>)
    ensures a <= a + b
  {
  }

  lemma SpansGrow(d: Draft, plain: string, spans: seq<Candidate>)
    ensures Grows(d, Folded(SpanStep(plain), d, spans, |spans|))
  {
    var rel := (a: Draft, b: Draft) => Grows(a, b);
    forall a: Draft, b: Draft, span: Candidate | rel(a, b) ensures rel(a, SpanStep(plain)(b, span)) {
      AppendedPrefix(b.placeholders, SpanStep(plain)(b, span).placeholders[|b.placeholders|..]);
      PrefixOnward(a.placeholders, b.placeholders, SpanStep(plain)(b, span).placeholders);
    }
    FoldGrows(rel, SpanStep(plain), d, spans, 0, |spans|);
  }

  lemma TokenGrows(d: Draft, token: Token, reader: Reader)
    ensures Grows(d, TokenDrafted(d, token, reader))
    ensures !token.kind.Text? ==>
      TokenDrafted(d, token, reader).placeholders ==
        d.placeholders + [Placeholder(|d.placeholders| + 1, if token.kind.Tag? then InlineTag else ProtectedBlock, token.raw, token.raw)]
  {
    if token.kind.Text? { SpansGrow(d.(position := 0), reader.unescape(token.raw), SpansIn(token, reader)); }
  }

  lemma TokensGrow(tokens: seq<Token>, reader: Reader, j: nat, k: nat)
    requires j <= k <= |tokens|
    ensures Grows(TokensDrafted(tokens, reader, j), TokensDrafted(tokens, reader, k))
  {
    var rel := (a: Draft, b: Draft) => Grows(a, b);
    forall a: Draft, b: Draft, token: Token | rel(a, b) ensures rel(a, TokenStep(reader)(b, token)) {
      TokenGrows(b, token, reader);
      PrefixOnward(a.placeholders, b.placeholders, TokenDrafted(b, token, reader).placeholders);
    }
    FoldGrows(rel, TokenStep(reader), BLANK, tokens, j, k);
  }

  /** A tag or protected block is what the placeholder with its id stands for, and ids grow with the
      positions of the tokens. */
  lemma TagHasItsPlaceholder(tokens: seq<Token>, reader: Reader, k: nat, n: nat)
    requires k < n <= |tokens| && !tokens[k].kind.Text?
    ensures var id, placeholders := IdAt(tokens, reader, k), TokensDrafted(tokens, reader, n).placeholders;
            && id <= |placeholders| && id < IdAt(tokens, reader, n)
            && placeholders[id - 1] == Placeholder(id, if tokens[k].kind.Tag? then InlineTag else ProtectedBlock, tokens[k].raw, tokens[k].raw)
  {
    TokenGrows(TokensDrafted(tokens, reader, k), tokens[k], reader);
    TokensGrow(tokens, reader, k + 1, n);
  }

  /** The ids of the matched tags, pair by pair. */
  ghost function TagPairsOf(tokens: seq<Token>, void: set<string>, reader: Reader): seq<Pair> {
    PairsMatch(tokens, void);
    Images(tokens, reader, StrictPairs(tokens, void))
  }

  function Images(tokens: seq<Token>, reader: Reader, pairs: seq<Pair>): seq<Pair>
    requires forall p :: p in pairs ==> p.0 < p.1 < |tokens|
  {
    if pairs == [] then []
    else
      var last := pairs[|pairs| - 1];
      Images(tokens, reader, pairs[..|pairs| - 1]) + [(IdAt(tokens, reader, last.0), IdAt(tokens, reader, last.1))]
  }

  /** A masked segment: the text with its holes, a placeholder for every tag, protected block and claimed
      span, and the matched tags as pairs of ids. */
  ghost function MaskedOf(tokens: seq<Token>, void: set<string>, reader: Reader): Masked {
    var d := TokensDrafted(tokens, reader, |tokens|);
    Masked(Render(d.pieces), Html(tokens), d.placeholders, TagPairsOf(tokens, void, reader))
  }

  /** The placeholders occur in the masked text once each and in order; unmasking the unchanged text gives
      every token back; and that identity translation raises no issue. */
  lemma MaskedIsSound(tokens: seq<Token>, void: set<string>, reader: Reader)
    ensures var masked := MaskedOf(tokens, void, reader);
            && Numbered(masked.placeholders) && FoundIds(masked.text) == Range(1, |masked.placeholders|)
            && Unmask(masked, masked.text) == Restored(tokens, reader)
            && ProperPairs(masked.tagPairs, |masked.placeholders|)
            && PlaceholderIssues(masked, masked.text) == []
  {
    var d := TokensDrafted(tokens, reader, |tokens|);
    TokensMask(tokens, reader);
    FillFromIsFilled(d.pieces, d.placeholders);
    RenderedIsReadBack(d.pieces, ById(d.placeholders));
    TagPairsProper(tokens, void, reader);
    IdentityHasNoIssue(MaskedOf(tokens, void, reader));
  }

  /** Masks a segment token by token: text through the matchers, every tag and protected block as
      one placeholder. */
  method MaskSegment(tokens: seq<Token>, void: set<string>, unescape: string -> string, matchers: string -> seq<Candidate>)
    returns (masked: Masked)
    requires forall plain {:trigger matchers(plain)} :: InBounds(matchers(plain), |plain|)
    ensures masked == MaskedOf(tokens, void, ReaderOf(unescape, matchers))
    ensures Numbered(masked.placeholders) && FoundIds(masked.text) == Range(1, |masked.placeholders|)
    ensures Unmask(masked, masked.text) == Restored(tokens, ReaderOf(unescape, matchers))
    ensures ProperPairs(masked.tagPairs, |masked.placeholders|) && PlaceholderIssues(masked, masked.text) == []
  {
    var reader := ReaderOf(unescape, matchers);
    var d, ids := MaskTokens(tokens, reader);
    var pairs := MatchedTagPairs(tokens, void);
    StrictPairsTags(tokens, void, pairs);
    var tagPairs := PairIds(tokens, reader, pairs, ids);
    masked := Masked(Render(d.pieces), Html(tokens), d.placeholders, tagPairs);
    MaskedIsSound(tokens, void, reader);
  }

  method MaskTokens(tokens: seq<Token>, reader: Reader) returns (d: Draft, ids: map<nat, nat>)
    requires Reads(reader)
    ensures d == TokensDrafted(tokens, reader, |tokens|) && ids == IdsTo(tokens, reader, |tokens|)
  {
    d, ids := BLANK, map[];
    for k := 0 to |tokens|
      invariant d == TokensDrafted(tokens, reader, k) && ids == IdsTo(tokens, reader, k)
    {
      NextToken(tokens, reader, k);
      ids := NextIds(ids, tokens[k], k, |d.placeholders| + 1);
      d := MaskToken(tokens[k], reader, d);
    }
  }

  lemma NextToken(tokens: seq<Token>, reader: Reader, k: nat)
    requires k < |tokens|
    ensures var d := TokensDrafted(tokens, reader, k);
            && TokensDrafted(tokens, reader, k + 1) == TokenStep(reader)(d, tokens[k])
            && IdsTo(tokens, reader, k + 1) == NextIds(IdsTo(tokens, reader, k), tokens[k], k, |d.placeholders| + 1)
  {
  }

  method MaskToken(token: Token, reader: Reader, d: Draft) returns (more: Draft)
    requires Reads(reader)
    ensures more == TokenStep(reader)(d, token)
  {
    if token.kind.Text? {
      var plain := reader.unescape(token.raw);
      more := MaskText(plain, reader.matchers(plain), d);
    } else {
      more := AddPlaceholder(d, if token.kind.Tag? then InlineTag else ProtectedBlock, token.raw, token.raw);
    }
  }

  method PairIds(tokens: seq<Token>, reader: Reader, pairs: seq<Pair>, ids: map<nat, nat>) returns (tagPairs: seq<Pair>)
    requires PairsTags(tokens, pairs) && ids == IdsTo(tokens, reader, |tokens|)
    ensures tagPairs == Images(tokens, reader, pairs)
  {
    tagPairs := [];
    for k := 0 to |pairs|
      invariant forall p :: p in pairs[..k] ==> p in pairs
      invariant tagPairs == Images(tokens, reader, pairs[..k])
    {
      assert pairs[k] in pairs;
      assert pairs[..k + 1][..k] == pairs[..k];
      IdRecorded(tokens, reader, |tokens|, pairs[k].0);
      IdRecorded(tokens, reader, |tokens|, pairs[k].1);
      tagPairs := tagPairs + [(ids[pairs[k].0], ids[pairs[k].1])];
    }
    assert pairs[..|pairs|] == pairs;
  }

  // ---------------------------------------------------------------- tag order

  /** Pairs of placeholder ids that are in order, in range and nested. */
  ghost predicate ProperPairs(pairs: seq<Pair>, count: nat) {
    && (forall p :: p in pairs ==> 1 <= p.0 < p.1 <= count)
    && forall p, q :: p in pairs && q in pairs ==> !Crossing(p, q)
  }

  lemma TagPairsProper(tokens: seq<Token>, void: set<string>, reader: Reader)
    ensures ProperPairs(TagPairsOf(tokens, void, reader), |TokensDrafted(tokens, reader, |tokens|).placeholders|)
  {
    var pairs := StrictPairs(tokens, void);
    PairsMatch(tokens, void);
    StrictPairsTags(tokens, void, pairs);
    ImagesAre(tokens, reader, pairs);
    var images, count := TagPairsOf(tokens, void, reader), |TokensDrafted(tokens, reader, |tokens|).placeholders|;
    forall p | p in images ensures 1 <= p.0 < p.1 <= count {
      var q :| q in pairs && p == Image(tokens, reader, q);
      TagHasItsPlaceholder(tokens, reader, q.0, q.1);
      TagHasItsPlaceholder(tokens, reader, q.1, |tokens|);
    }
    forall p, q | p in images && q in images ensures !Crossing(p, q) {
      var a :| a in pairs && p == Image(tokens, reader, a);
      var b :| b in pairs && q == Image(tokens, reader, b);
      ImagesDoNotCross(tokens, reader, a, b);
    }
  }

  function Image(tokens: seq<Token>, reader: Reader, p: Pair): Pair
    requires p.0 <= |tokens| && p.1 <= |tokens|
  {
    (IdAt(tokens, reader, p.0), IdAt(tokens, reader, p.1))
  }

  lemma {:induction false} ImagesAre(tokens: seq<Token>, reader: Reader, pairs: seq<Pair>)
    requires forall p :: p in pairs ==> p.0 < p.1 < |tokens|
    ensures forall q :: q in Images(tokens, reader, pairs) ==> exists p :: p in pairs && q == Image(tokens, reader, p)
  {
    if pairs != [] {
      var init, last := pairs[..|pairs| - 1], pairs[|pairs| - 1];
      ImagesAre(tokens, reader, init);
      forall q | q in Images(tokens, reader, pairs) ensures exists p :: p in pairs && q == Image(tokens, reader, p) {
        if q in Images(tokens, reader, init) {
          var p :| p in init && q == Image(tokens, reader, p);
          assert p in pairs;
        } else {
          assert last in pairs && q == Image(tokens, reader, last);
        }
      }
    }
  }

  /** Ids are in the order of their tags, so they cross only where the tags do. */
  lemma ImagesDoNotCross(tokens: seq<Token>, reader: Reader, a: Pair, b: Pair)
    requires a.0 < a.1 < |tokens| && b.0 < b.1 < |tokens| && !Crossing(a, b)
    requires !tokens[a.0].kind.Text? && !tokens[a.1].kind.Text? && !tokens[b.0].kind.Text? && !tokens[b.1].kind.Text?
    ensures !Crossing(Image(tokens, reader, a), Image(tokens, reader, b))
  {
    IdsInOrder(tokens, reader, a.0, b.0);
    IdsInOrder(tokens, reader, b.0, a.1);
    IdsInOrder(tokens, reader, a.1, b.1);
  }

  lemma IdsInOrder(tokens: seq<Token>, reader: Reader, j: nat, k: nat)
    requires j < |tokens| && k < |tokens| && !tokens[j].kind.Text? && !tokens[k].kind.Text?
    ensures IdAt(tokens, reader, j) < IdAt(tokens, reader, k) ==> j < k
  {
    if k < j { TagHasItsPlaceholder(tokens, reader, k, j); }
  }

  /** Where an id occurs last, as the position dictionary records it. */
  function Position(found: seq<nat>, id: nat): (k: nat)
    requires id in found
    ensures k < |found| && found[k] == id && forall j :: k < j < |found| ==> found[j] != id
  {
    if found[|found| - 1] == id then |found| - 1 else Position(found[..|found| - 1], id)
  }

  predicate Present(p: Pair, found: seq<nat>) { p.0 in found && p.1 in found }

  predicate TagsReordered(pairs: seq<Pair>, found: seq<nat>) {
    || (exists p :: p in pairs && Present(p, found) && Position(found, p.0) > Position(found, p.1))
    || exists p, q :: p in pairs && q in pairs && Present(p, found) && Present(q, found) &&
         Crossing((Position(found, p.0), Position(found, p.1)), (Position(found, q.0), Position(found, q.1)))
  }

  // ---------------------------------------------------------------- validation

  datatype Issue = PlaceholderMissing | PlaceholderDuplicated | PlaceholderUnknown | TagOrderBroken

  function Unmask(masked: Masked, translated: string): string {
    Substitute(translated, ById(masked.placeholders))
  }

  function ExpectedIds(placeholders: seq<Placeholder>): set<nat> {
    set k | 0 <= k < |placeholders| :: placeholders[k].id
  }

  predicate SomeMissing(expected: set<nat>, found: seq<nat>) { exists id :: id in expected && id !in multiset(found) }

  predicate SomeDuplicated(found: seq<nat>) { exists id :: id in found && multiset(found)[id] > 1 }

  predicate SomeUnknown(expected: set<nat>, found: seq<nat>) { exists id :: id in found && id !in expected }

  function When(condition: bool, issue: Issue): seq<Issue> { if condition then [issue] else [] }

  /** The issues about placeholders and tag order, in the order they are reported. */
  function PlaceholderIssues(masked: Masked, translated: string): seq<Issue> {
    var found, expected := FoundIds(translated), ExpectedIds(masked.placeholders);
    When(SomeMissing(expected, found), PlaceholderMissing) + When(SomeDuplicated(found), PlaceholderDuplicated)
      + When(SomeUnknown(expected, found), PlaceholderUnknown) + When(TagsReordered(masked.tagPairs, found), TagOrderBroken)
  }

  lemma IssueWhen(a: bool, b: bool, c: bool, d: bool)
    ensures var issues := When(a, PlaceholderMissing) + When(b, PlaceholderDuplicated) + When(c, PlaceholderUnknown) + When(d, TagOrderBroken);
            && (PlaceholderMissing in issues <==> a) && (PlaceholderDuplicated in issues <==> b)
            && (PlaceholderUnknown in issues <==> c) && (TagOrderBroken in issues <==> d)
            && (!a && !b && !c && !d ==> issues == [])
  {
    var issues := When(a, PlaceholderMissing) + When(b, PlaceholderDuplicated) + When(c, PlaceholderUnknown) + When(d, TagOrderBroken);
    assert forall i :: i in issues <==>
      (i in When(a, PlaceholderMissing) || i in When(b, PlaceholderDuplicated)
       || i in When(c, PlaceholderUnknown) || i in When(d, TagOrderBroken));
  }

  lemma IdentityHasNoIssue(masked: Masked)
    requires Numbered(masked.placeholders) && ProperPairs(masked.tagPairs, |masked.placeholders|)
    requires FoundIds(masked.text) == Range(1, |masked.placeholders|)
    ensures PlaceholderIssues(masked, masked.text) == []
  {
    ChecksMeanExactlyOnce(masked, masked.text);
    InOrderNotReordered(masked.tagPairs, |masked.placeholders|);
    var found, expected := FoundIds(masked.text), ExpectedIds(masked.placeholders);
    IssueWhen(SomeMissing(expected, found), SomeDuplicated(found), SomeUnknown(expected, found), TagsReordered(masked.tagPairs, found));
  }

  lemma PositionInRange(n: nat, id: nat)
    requires 1 <= id <= n
    ensures id in Range(1, n) && Position(Range(1, n), id) == id - 1
  {
    assert Range(1, n)[id - 1] == id;
  }

  lemma InOrderNotReordered(pairs: seq<Pair>, n: nat)
    requires ProperPairs(pairs, n)
    ensures !TagsReordered(pairs, Range(1, n))
  {
    var found := Range(1, n);
    forall p | p in pairs ensures Present(p, found) && Position(found, p.0) == p.0 - 1 && Position(found, p.1) == p.1 - 1 {
      PositionInRange(n, p.0);
      PositionInRange(n, p.1);
    }
    forall p, q | p in pairs && q in pairs
      ensures !Crossing((Position(found, p.0), Position(found, p.1)), (Position(found, q.0), Position(found, q.1)))
    {
      assert !Crossing(p, q);
    }
  }

  lemma {:induction false} OnceInRange(n: nat, id: nat)
    ensures multiset(Range(1, n))[id] == if 1 <= id <= n then 1 else 0
  {
    if n > 0 {
      OnceInRange(n - 1, id);
      assert Range(1, n) == Range(1, n - 1) + [n];
    }
  }

  /** The three placeholder checks pass exactly when every placeholder occurs exactly once and
      nothing else does. */
  lemma ChecksMeanExactlyOnce(masked: Masked, translated: string)
    requires Numbered(masked.placeholders)
    ensures (PlaceholderMissing !in PlaceholderIssues(masked, translated)
             && PlaceholderDuplicated !in PlaceholderIssues(masked, translated)
             && PlaceholderUnknown !in PlaceholderIssues(masked, translated))
      <==> multiset(FoundIds(translated)) == multiset(Range(1, |masked.placeholders|))
  {
    var found, expected := FoundIds(translated), ExpectedIds(masked.placeholders);
    IssueWhen(SomeMissing(expected, found), SomeDuplicated(found), SomeUnknown(expected, found), TagsReordered(masked.tagPairs, found));
    ExpectedAreNumbered(masked.placeholders);
    OnceEachExactlyWhen(found, |masked.placeholders|);
    assert forall id :: id in found <==> id in multiset(found);
  }

  lemma ExpectedAreNumbered(placeholders: seq<Placeholder>)
    requires Numbered(placeholders)
    ensures forall id: nat :: id in ExpectedIds(placeholders) <==> 1 <= id <= |placeholders|
  {
    forall id: nat ensures id in ExpectedIds(placeholders) <==> 1 <= id <= |placeholders| {
      if 1 <= id <= |placeholders| { assert placeholders[id - 1].id == id; }
    }
  }

  lemma OnceEachExactlyWhen(found: seq<nat>, n: nat)
    ensures multiset(found) == multiset(Range(1, n)) <==>
      && (forall id: nat :: 1 <= id <= n ==> id in found)
      && (forall id :: id in found ==> multiset(found)[id] <= 1 && 1 <= id <= n)
  {
    var counts, once := multiset(found), multiset(Range(1, n));
    forall id: nat ensures once[id] == if 1 <= id <= n then 1 else 0 { OnceInRange(n, id); }
    assert forall id :: id in found <==> id in counts;
    if (forall id: nat :: 1 <= id <= n ==> id in found) && (forall id :: id in found ==> counts[id] <= 1 && 1 <= id <= n) {
      forall id: nat ensures counts[id] == once[id] {
        if 1 <= id <= n { assert id in counts; } else { assert id !in found; }
      }
      assert counts == once;
    }
    if counts == once {
      forall id: nat | 1 <= id <= n ensures id in found { assert once[id] > 0; }
    }
  }

  /** Without glossary terms, masking and unmasking a text changes at most its escaping. */
  lemma PlainRest(plain: string, end: nat, before: string, all: string)
    requires end <= |plain| && before == plain[..end] && all == before + Between(plain, end, |plain|)
    ensures all == plain
  {
  }

  lemma TextWithoutGlossary(token: Token, reader: Reader)
    requires Reads(reader) && token.kind.Text?
    requires forall i :: 0 <= i < |SpansIn(token, reader)| ==> !SpansIn(token, reader)[i].kind.Glossary?
    ensures RestoredToken(token, reader) == Escape(reader.unescape(token.raw))
  {
    var plain, spans := reader.unescape(token.raw), SpansIn(token, reader);
    SpansInOrder(plain, reader.matchers(plain));
    WithoutGlossary(plain, spans, |spans|);
    var t := Folded(TargetStep(plain), Target("", 0), spans, |spans|);
    PlainRest(plain, t.end, t.text, WithTargets(plain, spans));
  }

  /** Unmasking gives a text back with its glossary terms, and nothing else, in their target form. */
  lemma TextWithGlossary(token: Token, reader: Reader)
    requires Reads(reader) && token.kind.Text?
    ensures var plain, spans := reader.unescape(token.raw), SpansIn(token, reader);
            Ahead(plain, spans, 0) && RestoredToken(token, reader) == Escape(Substituted(plain, spans, 0))
  {
    var plain, spans := reader.unescape(token.raw), SpansIn(token, reader);
    SpansInOrder(plain, reader.matchers(plain));
    GlossaryGetsItsTarget(plain, spans);
  }

  /** The last occurrence of an id. */
  predicate LastAt(found: seq<nat>, i: nat, id: nat) {
    i < |found| && found[i] == id && forall j :: i < j < |found| ==> found[j] != id
  }

  predicate Spans(found: seq<nat>, p: Pair, i: nat, j: nat) { LastAt(found, i, p.0) && LastAt(found, j, p.1) }

  /** The tag order check passes exactly when every matched element that is present still starts before
      it ends and no two of them overlap without nesting; of an id that repeats, the last counts. */
  lemma TagOrderMeans(pairs: seq<Pair>, found: seq<nat>)
    ensures !TagsReordered(pairs, found) <==>
      && (forall p, i: nat, j: nat :: p in pairs && Spans(found, p, i, j) ==> i <= j)
      && (forall p, q, i: nat, j: nat, k: nat, l: nat ::
            p in pairs && q in pairs && Spans(found, p, i, j) && Spans(found, q, k, l) ==> !(i < k < j < l))
  {
    forall id, i: nat | LastAt(found, i, id) ensures id in found && Position(found, id) == i {}
    forall p: Pair | Present(p, found) ensures Spans(found, p, Position(found, p.0), Position(found, p.1)) {}
    forall p: Pair, i: nat, j: nat | Spans(found, p, i, j)
      ensures Present(p, found) && i == Position(found, p.0) && j == Position(found, p.1) {}
  }
}
