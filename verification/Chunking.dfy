/** Splitting an over-long run of tokens into provider-sized chunks at sentence ends. */
module Chunking {
  import opened Common
  import opened TagPairs
  import opened Sentences

  /** The HTML that a run of tokens stands for. */
  function Html(tokens: seq<Token>): string {
    if tokens == [] then "" else Html(tokens[..|tokens| - 1]) + tokens[|tokens| - 1].raw
  }

  lemma {:induction false} HtmlConcat(a: seq<Token>, b: seq<Token>)
    ensures Html(a + b) == Html(a) + Html(b)
  {
    if b == [] {
      assert a + b == a;
    } else {
      assert (a + b)[..|a + b| - 1] == a + b[..|b| - 1];
      HtmlConcat(a, b[..|b| - 1]);
    }
  }

  lemma HtmlOne(token: Token)
    ensures Html([token]) == token.raw
  {
    assert [token][..0] == [];
    assert Html([]) + token.raw == token.raw;
  }

  lemma HtmlSnoc(a: seq<Token>, token: Token)
    ensures Html(a + [token]) == Html(a) + token.raw
  {
    assert (a + [token])[..|a|] == a;
  }

  /** Visible length of the text tokens, as the provider counts it. */
  function PlainLength(tokens: seq<Token>, unescape: string -> string): nat {
    if tokens == [] then 0
    else
      var last := tokens[|tokens| - 1];
      PlainLength(tokens[..|tokens| - 1], unescape) + if last.kind.Text? then |unescape(last.raw)| else 0
  }

  lemma {:induction false} PlainLengthConcat(a: seq<Token>, b: seq<Token>, unescape: string -> string)
    ensures PlainLength(a + b, unescape) == PlainLength(a, unescape) + PlainLength(b, unescape)
  {
    if b == [] {
      assert a + b == a;
    } else {
      assert (a + b)[..|a + b| - 1] == a + b[..|b| - 1];
      PlainLengthConcat(a, b[..|b| - 1], unescape);
    }
  }

  /** The text of the text tokens. */
  function TextOnly(tokens: seq<Token>): string {
    if tokens == [] then ""
    else
      var last := tokens[|tokens| - 1];
      TextOnly(tokens[..|tokens| - 1]) + if last.kind.Text? then last.raw else ""
  }

  lemma {:induction false} TextOnlyConcat(a: seq<Token>, b: seq<Token>)
    ensures TextOnly(a + b) == TextOnly(a) + TextOnly(b)
  {
    if b == [] {
      assert a + b == a;
    } else {
      assert (a + b)[..|a + b| - 1] == a + b[..|b| - 1];
      TextOnlyConcat(a, b[..|b| - 1]);
    }
  }

  lemma TextOnlyOne(token: Token)
    ensures TextOnly([token]) == if token.kind.Text? then token.raw else ""
  {
    assert [token][..0] == [];
  }

  // ---------------------------------------------------------------- where a run may be cut

  /** The pairs that are open right before position `k`. */
  ghost function Around(pairs: seq<Pair>, k: nat): set<Pair> {
    set p | p in pairs && p.0 < k <= p.1
  }

  /** The position lies inside a matched element. */
  predicate Inside(pairs: seq<Pair>, k: nat) { exists p :: p in pairs && p.0 < k < p.1 }

  /** A run may be cut in a text token outside every matched element, where a sentence ends. */
  ghost predicate CutAt(tokens: seq<Token>, pairs: seq<Pair>, k: nat, n: nat) {
    k < |tokens| && tokens[k].kind.Text? && !Inside(pairs, k) && SentenceEnd(tokens[k].raw, n)
  }

  /** `done` is what lies before such a cut. */
  ghost predicate Admissible(tokens: seq<Token>, pairs: seq<Pair>, done: string) {
    exists k: nat, n: nat :: CutAt(tokens, pairs, k, n) && done == Html(tokens[..k]) + tokens[k].raw[..n]
  }

  /** Some of `pieces` end with `done`, and others follow. */
  ghost predicate Boundary(pieces: seq<seq<Token>>, done: string) {
    exists i :: 0 < i < |pieces| && done == Html(Join(pieces[..i]))
  }

  function DepthChange(pairs: seq<Pair>, k: nat): int {
    (if exists p :: p in pairs && p.0 == k then 1 else 0) - (if exists p :: p in pairs && p.1 == k then 1 else 0)
  }

  lemma EndsDistinct(pairs: seq<Pair>, p: Pair, q: Pair)
    requires WellNested(pairs) && p in pairs && q in pairs && (p.0 == q.0 || p.1 == q.1)
    ensures p == q
  {
    var a :| 0 <= a < |pairs| && pairs[a] == p;
    var b :| 0 <= b < |pairs| && pairs[b] == q;
  }

  /** The running depth counts the matched elements that are open. */
  lemma DepthStep(pairs: seq<Pair>, k: nat)
    requires WellNested(pairs)
    ensures |Around(pairs, k + 1)| == |Around(pairs, k)| + DepthChange(pairs, k)
  {
    if p :| p in pairs && p.0 == k {
      OpenHere(pairs, p);
    } else if p :| p in pairs && p.1 == k {
      CloseHere(pairs, p);
    } else {
      assert Around(pairs, k + 1) == Around(pairs, k);
    }
  }

  lemma OpenHere(pairs: seq<Pair>, p: Pair)
    requires WellNested(pairs) && p in pairs
    ensures |Around(pairs, p.0 + 1)| == |Around(pairs, p.0)| + 1 && DepthChange(pairs, p.0) == 1
  {
    forall q | q in pairs && q.0 == p.0 ensures q == p { EndsDistinct(pairs, p, q); }
    forall q | q in pairs ensures q.1 != p.0 {}
    assert Around(pairs, p.0 + 1) == Around(pairs, p.0) + {p};
  }

  lemma CloseHere(pairs: seq<Pair>, p: Pair)
    requires WellNested(pairs) && p in pairs
    ensures |Around(pairs, p.1 + 1)| == |Around(pairs, p.1)| - 1 && DepthChange(pairs, p.1) == -1
  {
    forall q | q in pairs && q.1 == p.1 ensures q == p { EndsDistinct(pairs, p, q); }
    forall q | q in pairs ensures q.0 != p.1 {}
    assert Around(pairs, p.1 + 1) == Around(pairs, p.1) - {p};
    assert p in Around(pairs, p.1);
  }

  // ---------------------------------------------------------------- sentence units

  function AppendLast(units: seq<seq<Token>>, more: seq<Token>): seq<seq<Token>>
    requires units != []
  {
    units[..|units| - 1] + [units[|units| - 1] + more]
  }

  lemma AppendLastJoin(units: seq<seq<Token>>, more: seq<Token>)
    requires units != []
    ensures Join(AppendLast(units, more)) == Join(units) + more
    ensures Html(Join(AppendLast(units, more))) == Html(Join(units)) + Html(more)
    ensures TextOnly(Join(AppendLast(units, more))) == TextOnly(Join(units)) + TextOnly(more)
  {
    var front, last := units[..|units| - 1], units[|units| - 1];
    assert AppendLast(units, more) == front + [last + more];
    JoinSnoc(front, last + more);
    Regroup(Join(front), last, more);
    HtmlConcat(Join(units), more);
    TextOnlyConcat(Join(units), more);
  }

  /** Growing the last piece moves no boundary. */
  lemma SameBoundaries(units: seq<seq<Token>>, more: seq<Token>, done: string)
    requires units != []
    ensures Boundary(AppendLast(units, more), done) <==> Boundary(units, done)
  {
    var grown := AppendLast(units, more);
    assert forall i :: 0 < i < |units| ==> grown[..i] == units[..i];
  }

  /** Starting a new one adds the present end. */
  lemma OneMoreBoundary(units: seq<seq<Token>>, unit: seq<Token>, done: string)
    requires units != []
    ensures Boundary(units + [unit], done) <==> Boundary(units, done) || done == Html(Join(units))
  {
    var more := units + [unit];
    assert more[..|units|] == units;
    assert forall i :: 0 < i < |units| ==> more[..i] == units[..i];
  }

  function AddSentence(units: seq<seq<Token>>, sentence: string): (r: seq<seq<Token>>)
    requires units != []
    ensures r != []
  {
    var grown := AppendLast(units, [TextToken(sentence)]);
    if SentenceTail(sentence) then grown + [[]] else grown
  }

  /** The sentences of a text token, each ending the unit it is in. */
  function AddSentences(units: seq<seq<Token>>, sentences: seq<string>): (r: seq<seq<Token>>)
    requires units != []
    ensures r != []
  {
    if sentences == [] then units
    else AddSentence(AddSentences(units, sentences[..|sentences| - 1]), sentences[|sentences| - 1])
  }

  /** What the first `k` tokens of a run come to: whole tokens, and the sentences of text outside the
      matched elements. */
  function UnitsTo(tokens: seq<Token>, pairs: seq<Pair>, k: nat): (r: seq<seq<Token>>)
    requires k <= |tokens|
    ensures r != []
  {
    if k == 0 then [[]]
    else
      var before, token := UnitsTo(tokens, pairs, k - 1), tokens[k - 1];
      if !token.kind.Text? || Inside(pairs, k - 1) then AppendLast(before, [token])
      else AddSentences(before, Pieces(token.raw))
  }

  function Units(tokens: seq<Token>, pairs: seq<Pair>): seq<seq<Token>> { UnitsTo(tokens, pairs, |tokens|) }

  lemma {:induction false} AddSentencesKeeps(units: seq<seq<Token>>, sentences: seq<string>)
    requires units != []
    ensures Html(Join(AddSentences(units, sentences))) == Html(Join(units)) + Join(sentences)
    ensures TextOnly(Join(AddSentences(units, sentences))) == TextOnly(Join(units)) + Join(sentences)
  {
    if sentences != [] {
      var init, last := sentences[..|sentences| - 1], sentences[|sentences| - 1];
      AddSentencesKeeps(units, init);
      AddSentenceKeeps(AddSentences(units, init), last);
      Regroup(Html(Join(units)), Join(init), last);
      Regroup(TextOnly(Join(units)), Join(init), last);
    }
  }

  lemma AddSentenceKeeps(units: seq<seq<Token>>, sentence: string)
    requires units != []
    ensures Html(Join(AddSentence(units, sentence))) == Html(Join(units)) + sentence
    ensures TextOnly(Join(AddSentence(units, sentence))) == TextOnly(Join(units)) + sentence
  {
    AppendLastJoin(units, [TextToken(sentence)]);
    HtmlOne(TextToken(sentence));
    TextOnlyOne(TextToken(sentence));
    var grown := AppendLast(units, [TextToken(sentence)]);
    JoinSnoc(grown, []);
    assert Join(grown) + [] == Join(grown);
  }

  lemma {:induction false} UnitsKeep(tokens: seq<Token>, pairs: seq<Pair>, k: nat)
    requires k <= |tokens|
    ensures Html(Join(UnitsTo(tokens, pairs, k))) == Html(tokens[..k])
    ensures TextOnly(Join(UnitsTo(tokens, pairs, k))) == TextOnly(tokens[..k])
  {
    if k > 0 {
      var before, token := UnitsTo(tokens, pairs, k - 1), tokens[k - 1];
      UnitsKeep(tokens, pairs, k - 1);
      assert tokens[..k] == tokens[..k - 1] + [token];
      HtmlConcat(tokens[..k - 1], [token]);
      TextOnlyConcat(tokens[..k - 1], [token]);
      HtmlOne(token);
      TextOnlyOne(token);
      AppendLastJoin(before, [token]);
      AddSentencesKeeps(before, Pieces(token.raw));
      PiecesJoin(token.raw);
    }
  }

  /** `done` is what lies before the end of one of these sentences that has a sentence tail. */
  ghost predicate TailAt(before: string, sentences: seq<string>, done: string) {
    exists i: nat :: TailEnd(before, sentences, done, i)
  }

  predicate TailEnd(before: string, sentences: seq<string>, done: string, i: nat) {
    0 < i <= |sentences| && SentenceTail(sentences[i - 1]) && done == before + Join(sentences[..i])
  }

  lemma TailAtLast(before: string, sentences: seq<string>, done: string)
    requires sentences != []
    ensures TailAt(before, sentences, done) <==>
      || TailAt(before, sentences[..|sentences| - 1], done)
      || (SentenceTail(sentences[|sentences| - 1]) && done == before + Join(sentences))
  {
    if TailAt(before, sentences, done) { TailSplit(before, sentences, done); }
    if TailAt(before, sentences[..|sentences| - 1], done) { TailStays(before, sentences, done); }
    assert sentences[..|sentences|] == sentences;
    assert TailEnd(before, sentences, done, |sentences|) <==>
      SentenceTail(sentences[|sentences| - 1]) && done == before + Join(sentences);
  }

  lemma TailSplit(before: string, sentences: seq<string>, done: string)
    requires sentences != [] && TailAt(before, sentences, done)
    ensures TailAt(before, sentences[..|sentences| - 1], done) || TailEnd(before, sentences, done, |sentences|)
  {
    var i: nat :| TailEnd(before, sentences, done, i);
    if i < |sentences| { TailEarlier(before, sentences, done, i); }
  }

  lemma TailStays(before: string, sentences: seq<string>, done: string)
    requires sentences != [] && TailAt(before, sentences[..|sentences| - 1], done)
    ensures TailAt(before, sentences, done)
  {
    var i: nat :| TailEnd(before, sentences[..|sentences| - 1], done, i);
    TailEarlier(before, sentences, done, i);
  }

  lemma TailEarlier(before: string, sentences: seq<string>, done: string, i: nat)
    requires i < |sentences|
    ensures TailEnd(before, sentences[..|sentences| - 1], done, i) <==> TailEnd(before, sentences, done, i)
  {
    var init := sentences[..|sentences| - 1];
    if i > 0 { assert init[..i] == sentences[..i] && init[i - 1] == sentences[i - 1]; }
  }

  lemma {:induction false} SentenceBoundaries(units: seq<seq<Token>>, sentences: seq<string>, done: string)
    requires units != []
    ensures Boundary(AddSentences(units, sentences), done) <==>
      Boundary(units, done) || TailAt(Html(Join(units)), sentences, done)
  {
    if sentences != [] {
      var init, last := sentences[..|sentences| - 1], sentences[|sentences| - 1];
      var before := AddSentences(units, init);
      SentenceBoundaries(units, init, done);
      TailAtLast(Html(Join(units)), sentences, done);
      SameBoundaries(before, [TextToken(last)], done);
      OneMoreBoundary(AppendLast(before, [TextToken(last)]), [], done);
      AppendLastJoin(before, [TextToken(last)]);
      HtmlOne(TextToken(last));
      AddSentencesKeeps(units, init);
      Regroup(Html(Join(units)), Join(init), last);
    }
  }

  /** The ends of a text's sentences are those of its pieces with a tail. */
  lemma TailsAreEnds(before: string, text: string, done: string)
    ensures TailAt(before, Pieces(text), done) <==> exists n: nat :: SentenceEnd(text, n) && done == before + text[..n]
  {
    if i: nat :| TailEnd(before, Pieces(text), done, i) {
      PieceAt(text, i);
      assert SentenceEnd(text, |Join(Pieces(text)[..i])|);
    }
    if n: nat :| SentenceEnd(text, n) && done == before + text[..n] {
      var i := EndOfPiece(text, n);
      PieceAt(text, i);
      assert TailEnd(before, Pieces(text), done, i);
    }
  }

  ghost predicate AdmissibleTo(tokens: seq<Token>, pairs: seq<Pair>, end: nat, done: string) {
    exists k: nat, n: nat :: k < end && CutAt(tokens, pairs, k, n) && done == Html(tokens[..k]) + tokens[k].raw[..n]
  }

  lemma AdmissibleStep(tokens: seq<Token>, pairs: seq<Pair>, k: nat, done: string)
    requires k < |tokens|
    ensures AdmissibleTo(tokens, pairs, k + 1, done) <==>
      || AdmissibleTo(tokens, pairs, k, done)
      || (tokens[k].kind.Text? && !Inside(pairs, k)
          && exists n: nat :: SentenceEnd(tokens[k].raw, n) && done == Html(tokens[..k]) + tokens[k].raw[..n])
  {
    if tokens[k].kind.Text? && !Inside(pairs, k) {
      if n: nat :| SentenceEnd(tokens[k].raw, n) && done == Html(tokens[..k]) + tokens[k].raw[..n] {
        assert CutAt(tokens, pairs, k, n);
      }
    }
  }

  lemma {:induction false} UnitsCutTo(tokens: seq<Token>, pairs: seq<Pair>, k: nat, done: string)
    requires k <= |tokens|
    ensures Boundary(UnitsTo(tokens, pairs, k), done) <==> AdmissibleTo(tokens, pairs, k, done)
  {
    if k > 0 {
      var before, token := UnitsTo(tokens, pairs, k - 1), tokens[k - 1];
      UnitsCutTo(tokens, pairs, k - 1, done);
      assert tokens[k - 1] == token;
      AdmissibleStep(tokens, pairs, k - 1, done);
      if !token.kind.Text? || Inside(pairs, k - 1) {
        SameBoundaries(before, [token], done);
      } else {
        UnitsKeep(tokens, pairs, k - 1);
        SentenceBoundaries(before, Pieces(token.raw), done);
        TailsAreEnds(Html(tokens[..k - 1]), token.raw, done);
      }
    }
  }

  /** The units are cut exactly where the run may be cut: at every sentence end outside the matched
      elements, and nowhere else. */
  lemma UnitsCutExactlyAtSentences(tokens: seq<Token>, pairs: seq<Pair>, done: string)
    ensures Boundary(Units(tokens, pairs), done) <==> Admissible(tokens, pairs, done)
  {
    UnitsCutTo(tokens, pairs, |tokens|, done);
    if k: nat, n: nat :| CutAt(tokens, pairs, k, n) && done == Html(tokens[..k]) + tokens[k].raw[..n] {
      assert k < |tokens|;
    }
  }

  /** Only tags are paired. */
  ghost predicate PairsTags(tokens: seq<Token>, pairs: seq<Pair>) {
    forall p :: p in pairs ==> p.0 < p.1 < |tokens| && tokens[p.0].kind.Tag? && tokens[p.1].kind.Tag?
  }

  lemma StrictPairsTags(tokens: seq<Token>, void: set<string>, pairs: seq<Pair>)
    requires StrictMatching(tokens, void, pairs) && Below(pairs, |tokens|)
    ensures PairsTags(tokens, pairs)
  {
    forall p | p in pairs ensures tokens[p.0].kind.Tag? && tokens[p.1].kind.Tag? {
      assert (p.0, p.1) in pairs;
    }
  }

  lemma DepthMeansInside(tokens: seq<Token>, pairs: seq<Pair>, k: nat)
    requires PairsTags(tokens, pairs) && k < |tokens| && tokens[k].kind.Text?
    ensures |Around(pairs, k + 1)| != 0 <==> Inside(pairs, k)
  {
    if Inside(pairs, k) {
      var p :| p in pairs && p.0 < k < p.1;
      assert p in Around(pairs, k + 1);
    }
    if |Around(pairs, k + 1)| != 0 {
      var p :| p in Around(pairs, k + 1);
      assert p.0 < k < p.1;
    }
  }

  /** Units by the running depth of the matched elements. */
  method SentenceUnits(tokens: seq<Token>, pairs: seq<Pair>) returns (units: seq<seq<Token>>)
    requires WellNested(pairs) && PairsTags(tokens, pairs)
    ensures units == Units(tokens, pairs)
  {
    units := [[]];
    var depth: int := 0;
    assert Around(pairs, 0) == {};
    for index := 0 to |tokens|
      invariant units == UnitsTo(tokens, pairs, index)
      invariant depth == |Around(pairs, index)|
    {
      var token := tokens[index];
      DepthStep(pairs, index);
      depth := depth + DepthChange(pairs, index);
      if token.kind != Text {
        units := AppendLast(units, [token]);
        continue;
      }
      DepthMeansInside(tokens, pairs, index);
      if depth != 0 {
        units := AppendLast(units, [token]);
      } else {
        units := SplitToken(token.raw, units);
      }
    }
  }

  method SplitToken(raw: string, units: seq<seq<Token>>) returns (more: seq<seq<Token>>)
    requires units != []
    ensures more == AddSentences(units, Pieces(raw))
  {
    var sentences := SplitKeepingWhitespace(raw);
    more := units;
    for m := 0 to |sentences|
      invariant more == AddSentences(units, sentences[..m])
    {
      assert sentences[..m + 1][..m] == sentences[..m];
      more := AppendLast(more, [TextToken(sentences[m])]);
      if SentenceTail(sentences[m]) {
        more := more + [[]];
      }
    }
    assert sentences[..|sentences|] == sentences;
  }

  // ---------------------------------------------------------------- packing units into chunks

  /** One more unit: into the last chunk if it fits, into a new one if there is anything in it. */
  function PackOne(chunks: seq<seq<Token>>, unit: seq<Token>, limit: int, unescape: string -> string): seq<seq<Token>> {
    if chunks != [] && PlainLength(chunks[|chunks| - 1], unescape) + PlainLength(unit, unescape) <= limit then AppendLast(chunks, unit)
    else if unit != [] then chunks + [unit]
    else chunks
  }

  function PackTo(units: seq<seq<Token>>, limit: int, unescape: string -> string, k: nat): seq<seq<Token>>
    requires k <= |units|
  {
    if k == 0 then [] else PackOne(PackTo(units, limit, unescape, k - 1), units[k - 1], limit, unescape)
  }

  function Pack(units: seq<seq<Token>>, limit: int, unescape: string -> string): seq<seq<Token>> {
    PackTo(units, limit, unescape, |units|)
  }

  lemma {:induction false} PackKeeps(units: seq<seq<Token>>, limit: int, unescape: string -> string, k: nat)
    requires k <= |units|
    ensures Join(PackTo(units, limit, unescape, k)) == Join(units[..k])
    ensures forall c :: c in PackTo(units, limit, unescape, k) ==> c != []
  {
    if k > 0 {
      PackKeeps(units, limit, unescape, k - 1);
      assert units[..k] == units[..k - 1] + [units[k - 1]];
      JoinSnoc(units[..k - 1], units[k - 1]);
      PackOneKeeps(PackTo(units, limit, unescape, k - 1), units[k - 1], limit, unescape);
    } else {
      assert units[..0] == [];
    }
  }

  lemma PackOneKeeps(chunks: seq<seq<Token>>, unit: seq<Token>, limit: int, unescape: string -> string)
    requires forall c :: c in chunks ==> c != []
    ensures Join(PackOne(chunks, unit, limit, unescape)) == Join(chunks) + unit
    ensures forall c :: c in PackOne(chunks, unit, limit, unescape) ==> c != []
  {
    if chunks != [] { AppendLastJoin(chunks, unit); }
    JoinSnoc(chunks, unit);
    assert Join(chunks) + [] == Join(chunks);
    if chunks != [] {
      assert forall c :: c in AppendLast(chunks, unit) ==> c in chunks || c == chunks[|chunks| - 1] + unit;
    }
  }

  /** Every chunk boundary is one of a unit. */
  lemma {:induction false} PackBoundaries(units: seq<seq<Token>>, limit: int, unescape: string -> string, k: nat, done: string)
    requires k <= |units| && Boundary(PackTo(units, limit, unescape, k), done)
    ensures Boundary(units, done)
  {
    var chunks, unit := PackTo(units, limit, unescape, k - 1), units[k - 1];
    if chunks != [] {
      SameBoundaries(chunks, unit, done);
      OneMoreBoundary(chunks, unit, done);
      if !Boundary(chunks, done) { PackedBoundary(units, limit, unescape, k - 1); } else { PackBoundaries(units, limit, unescape, k - 1, done); }
    }
  }

  lemma PackedBoundary(units: seq<seq<Token>>, limit: int, unescape: string -> string, k: nat)
    requires k < |units| && PackTo(units, limit, unescape, k) != []
    ensures Boundary(units, Html(Join(PackTo(units, limit, unescape, k))))
  {
    PackKeeps(units, limit, unescape, k);
    assert k > 0;
  }

  /** A chunk over the limit is one unit, and neighbours would not fit together. */
  ghost predicate Greedy(units: seq<seq<Token>>, limit: int, unescape: string -> string, chunks: seq<seq<Token>>) {
    && (forall i :: 0 <= i < |chunks| ==> PlainLength(chunks[i], unescape) <= limit || IsUnit(units, chunks, i))
    && (forall i :: 0 < i < |chunks| ==> PlainLength(chunks[i - 1], unescape) + PlainLength(chunks[i], unescape) > limit)
  }

  ghost predicate IsUnit(units: seq<seq<Token>>, chunks: seq<seq<Token>>, i: nat)
    requires i < |chunks|
  {
    exists j :: 0 <= j < |units| && chunks[i] == units[j] && Join(chunks[..i]) == Join(units[..j])
  }

  lemma {:induction false} PackIsGreedy(units: seq<seq<Token>>, limit: int, unescape: string -> string, k: nat)
    requires k <= |units|
    ensures Greedy(units, limit, unescape, PackTo(units, limit, unescape, k))
  {
    if k > 0 {
      var chunks, unit := PackTo(units, limit, unescape, k - 1), units[k - 1];
      PackIsGreedy(units, limit, unescape, k - 1);
      PackKeeps(units, limit, unescape, k - 1);
      if chunks != [] && PlainLength(chunks[|chunks| - 1], unescape) + PlainLength(unit, unescape) <= limit {
        GreedyGrows(units, limit, unescape, chunks, unit);
      } else if unit != [] {
        GreedyAdds(units, limit, unescape, chunks, k - 1);
      }
    }
  }

  lemma GreedyGrows(units: seq<seq<Token>>, limit: int, unescape: string -> string, chunks: seq<seq<Token>>, unit: seq<Token>)
    requires Greedy(units, limit, unescape, chunks) && chunks != []
    requires PlainLength(chunks[|chunks| - 1], unescape) + PlainLength(unit, unescape) <= limit
    ensures Greedy(units, limit, unescape, AppendLast(chunks, unit))
  {
    var more := AppendLast(chunks, unit);
    PlainLengthConcat(chunks[|chunks| - 1], unit, unescape);
    forall i | 0 <= i < |more| ensures PlainLength(more[i], unescape) <= limit || IsUnit(units, more, i) {
      assert more[..i] == chunks[..i];
      if i < |more| - 1 {
        assert more[i] == chunks[i];
        assert IsUnit(units, chunks, i) ==> IsUnit(units, more, i);
      }
    }
  }

  lemma GreedyAdds(units: seq<seq<Token>>, limit: int, unescape: string -> string, chunks: seq<seq<Token>>, k: nat)
    requires k < |units| && Greedy(units, limit, unescape, chunks) && Join(chunks) == Join(units[..k])
    requires chunks != [] ==> PlainLength(chunks[|chunks| - 1], unescape) + PlainLength(units[k], unescape) > limit
    ensures Greedy(units, limit, unescape, chunks + [units[k]])
  {
    var more := chunks + [units[k]];
    assert more[..|chunks|] == chunks;
    assert IsUnit(units, more, |chunks|);
    forall i | 0 <= i < |chunks| ensures PlainLength(more[i], unescape) <= limit || IsUnit(units, more, i) {
      assert more[..i] == chunks[..i] && more[i] == chunks[i];
      assert IsUnit(units, chunks, i) ==> IsUnit(units, more, i);
    }
  }

  /** Greedy packing: consecutive units share a chunk while they fit the limit. */
  method PackUnits(units: seq<seq<Token>>, limit: int, unescape: string -> string) returns (chunks: seq<seq<Token>>)
    ensures chunks == Pack(units, limit, unescape)
    ensures Join(chunks) == Join(units) && Greedy(units, limit, unescape, chunks)
  {
    chunks := [];
    for k := 0 to |units|
      invariant chunks == PackTo(units, limit, unescape, k)
    {
      var unit := units[k];
      if chunks != [] && PlainLength(chunks[|chunks| - 1], unescape) + PlainLength(unit, unescape) <= limit {
        chunks := AppendLast(chunks, unit);
      } else if unit != [] {
        chunks := chunks + [unit];
      }
    }
    PackKeeps(units, limit, unescape, |units|);
    PackIsGreedy(units, limit, unescape, |units|);
    assert units[..|units|] == units;
  }

  // ---------------------------------------------------------------- the chunks of a run

  predicate Short(tokens: seq<Token>, maxChars: Option<int>, unescape: string -> string) {
    maxChars.None? || PlainLength(tokens, unescape) <= maxChars.value
  }

  function ChunksOf(tokens: seq<Token>, void: set<string>, maxChars: Option<int>, unescape: string -> string): seq<seq<Token>> {
    if Short(tokens, maxChars, unescape) then [tokens]
    else Pack(Units(tokens, StrictPairs(tokens, void)), maxChars.value, unescape)
  }

  lemma ChunksKeep(tokens: seq<Token>, void: set<string>, maxChars: Option<int>, unescape: string -> string)
    ensures Html(Join(ChunksOf(tokens, void, maxChars, unescape))) == Html(tokens)
    ensures TextOnly(Join(ChunksOf(tokens, void, maxChars, unescape))) == TextOnly(tokens)
  {
    if Short(tokens, maxChars, unescape) {
      JoinOne(tokens);
    } else {
      var units := Units(tokens, StrictPairs(tokens, void));
      PackKeeps(units, maxChars.value, unescape, |units|);
      UnitsKeep(tokens, StrictPairs(tokens, void), |tokens|);
      assert units[..|units|] == units && tokens[..|tokens|] == tokens;
    }
  }

  /** Chunks are separated by admissible cuts only. */
  lemma ChunksCutAtSentences(tokens: seq<Token>, void: set<string>, maxChars: Option<int>, unescape: string -> string, done: string)
    requires Boundary(ChunksOf(tokens, void, maxChars, unescape), done)
    ensures Admissible(tokens, StrictPairs(tokens, void), done)
  {
    var pairs := StrictPairs(tokens, void);
    PackBoundaries(Units(tokens, pairs), maxChars.value, unescape, |Units(tokens, pairs)|, done);
    UnitsCutExactlyAtSentences(tokens, pairs, done);
  }

  /** `piece`, which comes after `before` in the run, holds no admissible cut. */
  ghost predicate Unsplittable(tokens: seq<Token>, pairs: seq<Pair>, before: seq<Token>, piece: seq<Token>) {
    forall done :: Admissible(tokens, pairs, done) ==> !(|Html(before)| < |done| < |Html(before)| + |Html(piece)|)
  }

  /** A chunk is over the limit only where the run cannot be cut. */
  lemma OverLimitIsUnsplittable(tokens: seq<Token>, void: set<string>, maxChars: Option<int>, unescape: string -> string, i: nat)
    requires i < |ChunksOf(tokens, void, maxChars, unescape)|
    requires !Short(ChunksOf(tokens, void, maxChars, unescape)[i], maxChars, unescape)
    ensures var chunks := ChunksOf(tokens, void, maxChars, unescape);
            Unsplittable(tokens, StrictPairs(tokens, void), Join(chunks[..i]), chunks[i])
  {
    var pairs := StrictPairs(tokens, void);
    var units, chunks := Units(tokens, pairs), ChunksOf(tokens, void, maxChars, unescape);
    PackIsGreedy(units, maxChars.value, unescape, |units|);
    assert IsUnit(units, chunks, i);
    var j :| 0 <= j < |units| && chunks[i] == units[j] && Join(chunks[..i]) == Join(units[..j]);
    forall done | Admissible(tokens, pairs, done)
      ensures !(|Html(Join(units[..j]))| < |done| < |Html(Join(units[..j]))| + |Html(units[j])|)
    {
      UnitsCutExactlyAtSentences(tokens, pairs, done);
      NoneBetween(units, j, done);
    }
  }

  lemma NoneBetween(units: seq<seq<Token>>, j: nat, done: string)
    requires j < |units| && Boundary(units, done)
    ensures !(|Html(Join(units[..j]))| < |done| < |Html(Join(units[..j]))| + |Html(units[j])|)
  {
    var b :| 0 < b < |units| && done == Html(Join(units[..b]));
    assert units[..j + 1] == units[..j] + [units[j]];
    JoinSnoc(units[..j], units[j]);
    HtmlConcat(Join(units[..j]), units[j]);
    if b <= j { LaterIsLonger(units, b, j); } else { LaterIsLonger(units, j + 1, b); }
  }

  lemma LaterIsLonger(units: seq<seq<Token>>, a: nat, b: nat)
    requires a <= b <= |units|
    ensures |Html(Join(units[..a]))| <= |Html(Join(units[..b]))|
  {
    assert units[..b] == units[..a] + units[a..b];
    JoinConcat(units[..a], units[a..b]);
    HtmlConcat(Join(units[..a]), Join(units[a..b]));
  }

  /** Neighbours would not fit the limit together: no cut is made without need. */
  lemma NeighboursDoNotFit(tokens: seq<Token>, void: set<string>, maxChars: Option<int>, unescape: string -> string, i: nat)
    requires 0 < i < |ChunksOf(tokens, void, maxChars, unescape)|
    ensures var chunks := ChunksOf(tokens, void, maxChars, unescape);
            maxChars.Some? && PlainLength(chunks[i - 1] + chunks[i], unescape) > maxChars.value
  {
    var chunks, units := ChunksOf(tokens, void, maxChars, unescape), Units(tokens, StrictPairs(tokens, void));
    PackIsGreedy(units, maxChars.value, unescape, |units|);
    PlainLengthConcat(chunks[i - 1], chunks[i], unescape);
  }

  /** A run is split into sentences only when its text is longer than the provider's limit. Every
      boundary is an admissible cut, a chunk over the limit holds none, and no two neighbours fit
      together. */
  method Chunks(tokens: seq<Token>, void: set<string>, maxChars: Option<int>, unescape: string -> string)
    returns (chunks: seq<seq<Token>>)
    ensures chunks == ChunksOf(tokens, void, maxChars, unescape)
    ensures Html(Join(chunks)) == Html(tokens)
    ensures forall done :: Boundary(chunks, done) ==> Admissible(tokens, StrictPairs(tokens, void), done)
    ensures forall i :: 0 <= i < |chunks| && !Short(chunks[i], maxChars, unescape) ==>
      Unsplittable(tokens, StrictPairs(tokens, void), Join(chunks[..i]), chunks[i])
    ensures forall i :: 0 < i < |chunks| ==> !Short(chunks[i - 1] + chunks[i], maxChars, unescape)
  {
    ChunksMeet(tokens, void, maxChars, unescape);
    if maxChars.None? || PlainLength(tokens, unescape) <= maxChars.value {
      chunks := [tokens];
      return;
    }
    var pairs := MatchedTagPairs(tokens, void);
    StrictPairsTags(tokens, void, pairs);
    var units := SentenceUnits(tokens, pairs);
    chunks := PackUnits(units, maxChars.value, unescape);
  }

  lemma ChunksMeet(tokens: seq<Token>, void: set<string>, maxChars: Option<int>, unescape: string -> string)
    ensures var chunks := ChunksOf(tokens, void, maxChars, unescape);
            && Html(Join(chunks)) == Html(tokens)
            && (forall done :: Boundary(chunks, done) ==> Admissible(tokens, StrictPairs(tokens, void), done))
            && (forall i :: 0 <= i < |chunks| && !Short(chunks[i], maxChars, unescape) ==>
                  Unsplittable(tokens, StrictPairs(tokens, void), Join(chunks[..i]), chunks[i]))
            && (forall i :: 0 < i < |chunks| ==> !Short(chunks[i - 1] + chunks[i], maxChars, unescape))
  {
    var chunks := ChunksOf(tokens, void, maxChars, unescape);
    ChunksKeep(tokens, void, maxChars, unescape);
    forall done | Boundary(chunks, done) ensures Admissible(tokens, StrictPairs(tokens, void), done) {
      ChunksCutAtSentences(tokens, void, maxChars, unescape, done);
    }
    forall i | 0 <= i < |chunks| && !Short(chunks[i], maxChars, unescape)
      ensures Unsplittable(tokens, StrictPairs(tokens, void), Join(chunks[..i]), chunks[i])
    {
      OverLimitIsUnsplittable(tokens, void, maxChars, unescape, i);
    }
    forall i | 0 < i < |chunks| ensures !Short(chunks[i - 1] + chunks[i], maxChars, unescape) {
      NeighboursDoNotFit(tokens, void, maxChars, unescape, i);
    }
  }
}
