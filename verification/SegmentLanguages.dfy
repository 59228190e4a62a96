/** The block and the language a segment carries: those of the innermost block that is open where its
    text stands, the language taken from the nearest block that says one. */
module SegmentLanguages {
  import opened Common
  import opened TagPairs
  import opened Chunking
  import opened Segmenter
  import opened SegmenterSteps
  import opened ProtectedStretches
  import opened SegmenterGuarantees

  // ---------------------------------------------------------------- a run belongs to one block

  /** What has been collected stands in the block that is open now. */
  predicate Settled(s: State) { s.run != [] ==> s.context == SegmenterSteps.Top(s.stack) }

  lemma AppendSettles(s: State, token: Token)
    requires Settled(s)
    ensures Settled(Materialize(s)) && Settled(Append(s, token))
  {
  }

  lemma EndRegionSettles(s: State)
    requires Settled(s) && s.skip.Some?
    ensures Settled(EndRegion(s))
  {
    AppendSettles(s.(skip := None), Token(Protected, Join(s.skip.value.buffer), "", false));
  }

  lemma TextSettles(s: State, raw: string)
    requires Settled(s)
    ensures Settled(AddText(s, raw)) && Settled(AddOpaque(s, raw))
  {
    AppendSettles(s, Token(Protected, raw, "", false));
  }

  lemma StartOutsideSettles(s: State, event: TagEvent, raw: string, void: bool, opts: Settings)
    requires Settled(s)
    ensures Settled(StartOutside(s, event, raw, void, opts))
  {
    FlushKeeps(s, opts);
    match RoleOf(event, void, opts.tags)
    case Region => AppendSettles(if InlineTag(event.tag, opts.tags) then s else Flush(s, opts), TextToken(""));
    case Opaque => TextSettles(s, raw);
    case Inline => AppendSettles(s, Token(Tag, raw, event.tag, false));
    case Block =>
  }

  lemma EndOutsideSettles(s: State, tag: string, raw: string, opts: Settings)
    requires Settled(s)
    ensures Settled(EndOutside(s, tag, raw, opts))
  {
    FlushKeeps(s, opts);
    AppendSettles(s, Token(Tag, raw, tag, true));
  }

  lemma StartSettles(s: State, event: TagEvent, raw: string, void: bool, opts: Settings)
    requires Settled(s)
    ensures Settled(Start(s, event, raw, void, opts))
  {
    if s.skip.Some? { EndRegionSettles(s); }
    StartOutsideSettles(CountRoot(OutOfRegion(s), event.lang), event, raw, void, opts);
  }

  lemma EndSettles(s: State, tag: string, raw: string, opts: Settings)
    requires Settled(s)
    ensures Settled(End(s, tag, raw, opts))
  {
    if s.skip.None? {
      EndOutsideSettles(s, tag, raw, opts);
    } else {
      EndRegionSettles(s);
      EndOutsideSettles(EndRegion(s), tag, raw, opts);
      match EndInside(s.skip.value, tag, raw)
      case Completes(skip) => EndRegionSettles(s.(skip := Some(skip)));
      case Stays(_) =>
      case BreaksOff =>
    }
  }

  lemma {:induction false} ProcessSettles(events: seq<Event>, opts: Settings)
    ensures Settled(Process(events, opts))
  {
    if events != [] {
      var s, event := Process(events[..|events| - 1], opts), events[|events| - 1];
      ProcessSettles(events[..|events| - 1], opts);
      if IsStart(event) { StartSettles(s, event.start, RawText(event), IsVoid(event, opts.tags), opts); }
      else if event.EndTag? { EndSettles(s, event.tag, RawText(event), opts); }
      else { TextSettles(s, RawText(event)); }
    }
  }

  lemma EndedContext(s: State)
    requires Settled(s) && EndedRun(s).tokens != []
    ensures EndedRun(s).context == SegmenterSteps.Top(s.stack)
  {
    if s.skip.Some? { EndRegionSettles(s); }
    AppendSettles(OutOfRegion(s), TextToken(""));
  }

  // ---------------------------------------------------------------- the open blocks and their languages

  /** A start tag that opens a block. */
  predicate OpensBlock(before: seq<Event>, event: Event, tags: Vocabulary) {
    && IsStart(event) && !IsVoid(event, tags) && !Hidden(before, event, tags)
    && !Protecting(event, tags) && !InlineTag(event.start.tag, tags)
  }

  /** Blocks are closed from the innermost on, and one may be opened. */
  predicate Follows(blocks: seq<Segmenter.Block>, next: seq<Segmenter.Block>, event: Event, opens: bool) {
    if opens then
      && IsStart(event) && 0 < |next| <= |blocks| + 1
      && next == blocks[..|next| - 1] + [(event.start.tag, EffectiveLang(event.start.lang, blocks[..|next| - 1]))]
    else next <= blocks
  }

  lemma OpenedFollows(blocks: seq<Segmenter.Block>, event: Event, tags: Vocabulary)
    requires IsStart(event)
    ensures var void := IsVoid(event, tags);
            Follows(blocks, OpenBlock(blocks, event.start.tag, event.start.lang, void, tags), event, !void)
  {
    var below := CloseImplied(WithoutParagraph(blocks), event.start.tag, tags);
    assert below == blocks[..|below|];
  }

  lemma BlocksFollow(before: seq<Event>, event: Event, tags: Vocabulary)
    ensures Follows(BlocksAt(before, tags), BlocksAt(before + [event], tags), event, OpensBlock(before, event, tags))
  {
    if Hidden(before, event, tags) {
      HiddenKeeps(before, event, tags);
    } else if OwnEnd(before, event, tags) {
      assert (before + [event])[..|before|] == before;
    } else {
      ShownStep(before, event, tags);
      if IsStart(event) { OpenedFollows(BlocksAt(before, tags), event, tags); }
    }
  }

  predicate AreStarts(events: seq<Event>, openers: seq<nat>) {
    forall k :: 0 <= k < |openers| ==> openers[k] < |events| && IsStart(events[openers[k]])
  }

  /** The start tag of the innermost of the given blocks. */
  function Innermost(events: seq<Event>, openers: seq<nat>): TagEvent
    requires openers != [] && AreStarts(events, openers)
  {
    var event := events[openers[|openers| - 1]];
    assert IsStart(event);
    event.start
  }

  /** The start tags of `n` open blocks, the last of them new if it has just been opened. */
  function Restacked(openers: seq<nat>, n: nat, opens: bool, position: nat): (next: seq<nat>)
    requires if opens then 0 < n <= |openers| + 1 else n <= |openers|
    ensures |next| == n
  {
    if opens then openers[..n - 1] + [position] else openers[..n]
  }

  lemma RestackedStarts(before: seq<Event>, event: Event, openers: seq<nat>, n: nat, opens: bool)
    requires AreStarts(before, openers) && if opens then 0 < n <= |openers| + 1 && IsStart(event) else n <= |openers|
    ensures AreStarts(before + [event], Restacked(openers, n, opens, |before|))
  {
  }

  /** The start tags of the open blocks, outermost first. */
  function Openers(events: seq<Event>, tags: Vocabulary): (openers: seq<nat>)
    ensures |openers| == |BlocksAt(events, tags)| && AreStarts(events, openers)
  {
    if events == [] then []
    else
      var before, event := events[..|events| - 1], events[|events| - 1];
      var n, opens := |BlocksAt(events, tags)|, OpensBlock(before, event, tags);
      assert before + [event] == events;
      BlocksFollow(before, event, tags);
      RestackedStarts(before, event, Openers(before, tags), n, opens);
      Restacked(Openers(before, tags), n, opens, |before|)
  }

  /** The language that the nearest of the given start tags says, if any says one. */
  function Nearest(events: seq<Event>, openers: seq<nat>): Option<string>
    requires AreStarts(events, openers)
  {
    if openers == [] then None
    else
      var lang := Innermost(events, openers).lang;
      if lang.Some? && lang.value != "" then lang else Nearest(events, openers[..|openers| - 1])
  }

  lemma {:induction false} NearestEarlier(before: seq<Event>, event: Event, openers: seq<nat>)
    requires AreStarts(before, openers)
    ensures Nearest(before + [event], openers) == Nearest(before, openers)
  {
    if openers != [] { NearestEarlier(before, event, openers[..|openers| - 1]); }
  }

  predicate BlockIs(block: Segmenter.Block, events: seq<Event>, openers: seq<nat>)
    requires openers != [] && AreStarts(events, openers)
  {
    block == (Innermost(events, openers).tag, Nearest(events, openers))
  }

  /** Every block has the name of its start tag, and the language of the nearest start tag that says one,
      its own included. */
  predicate Inherit(blocks: seq<Segmenter.Block>, events: seq<Event>, openers: seq<nat>)
    requires |openers| == |blocks| && AreStarts(events, openers)
  {
    forall k :: 0 <= k < |blocks| ==> BlockIs(blocks[k], events, openers[..k + 1])
  }

  lemma StillInherited(blocks: seq<Segmenter.Block>, before: seq<Event>, event: Event, openers: seq<nat>, k: nat)
    requires |openers| == |blocks| && AreStarts(before, openers) && Inherit(blocks, before, openers) && k < |blocks|
    ensures BlockIs(blocks[k], before + [event], openers[..k + 1])
  {
    NearestEarlier(before, event, openers[..k + 1]);
  }

  /** The block just opened. */
  lemma NewInherited(blocks: seq<Segmenter.Block>, before: seq<Event>, event: Event, openers: seq<nat>, n: nat)
    requires |openers| == |blocks| && AreStarts(before, openers) && Inherit(blocks, before, openers)
    requires n <= |blocks| && IsStart(event)
    ensures BlockIs((event.start.tag, EffectiveLang(event.start.lang, blocks[..n])), before + [event], openers[..n] + [|before|])
  {
    var below := openers[..n];
    assert (below + [|before|])[..n] == below;
    NearestEarlier(before, event, below);
    if n > 0 { assert BlockIs(blocks[n - 1], before, openers[..n - 1 + 1]); }
  }

  lemma NextInherits(blocks: seq<Segmenter.Block>, next: seq<Segmenter.Block>, before: seq<Event>, event: Event, openers: seq<nat>, opens: bool, k: nat)
    requires |openers| == |blocks| && AreStarts(before, openers) && Inherit(blocks, before, openers)
    requires Follows(blocks, next, event, opens) && k < |next|
    requires AreStarts(before + [event], Restacked(openers, |next|, opens, |before|))
    ensures BlockIs(next[k], before + [event], Restacked(openers, |next|, opens, |before|)[..k + 1])
  {
    var after := Restacked(openers, |next|, opens, |before|);
    if opens && k == |next| - 1 {
      NewInherited(blocks, before, event, openers, k);
      assert after[..k + 1] == openers[..k] + [|before|];
    } else {
      StillInherited(blocks, before, event, openers, k);
      assert after[..k + 1] == openers[..k + 1];
    }
  }

  lemma {:induction false} LanguagesInherited(events: seq<Event>, tags: Vocabulary)
    ensures Inherit(BlocksAt(events, tags), events, Openers(events, tags))
  {
    if events != [] {
      var before, event := events[..|events| - 1], events[|events| - 1];
      assert events == before + [event];
      LanguagesInherited(before, tags);
      BlocksFollow(before, event, tags);
      forall k | 0 <= k < |BlocksAt(events, tags)|
        ensures BlockIs(BlocksAt(events, tags)[k], events, Openers(events, tags)[..k + 1])
      {
        NextInherits(BlocksAt(before, tags), BlocksAt(events, tags), before, event, Openers(before, tags), OpensBlock(before, event, tags), k);
      }
    }
  }

  // ---------------------------------------------------------------- segments

  /** The innermost open block. */
  lemma TopBlock(events: seq<Event>, tags: Vocabulary)
    ensures var openers := Openers(events, tags);
            SegmenterSteps.Top(BlocksAt(events, tags)) == (if openers == [] then "" else Innermost(events, openers).tag, Nearest(events, openers))
  {
    var blocks, openers := BlocksAt(events, tags), Openers(events, tags);
    LanguagesInherited(events, tags);
    if blocks != [] {
      assert openers[..|blocks| - 1 + 1] == openers;
      assert BlockIs(blocks[|blocks| - 1], events, openers[..|blocks| - 1 + 1]);
    }
  }

  lemma ContextOfSegment(s: State, segment: Segment, opts: Settings)
    requires Settled(s) && CutFrom(segment, EndedRun(s), opts)
    ensures (segment.block, segment.lang) == SegmenterSteps.Top(s.stack)
  {
    var i: nat :| IsChunk(segment, EndedRun(s), opts, i);
    EndedContext(s);
  }

  /** A segment carries the name of the innermost block open where its run ended, and the language that
      the nearest open block says. */
  lemma LanguageOfSegment(events: seq<Event>, opts: Settings, segment: Segment) returns (k: nat)
    requires segment in DocumentOf(events, opts).segments
    ensures CutBy(segment, events, opts, k)
    ensures var openers := Openers(events[..k], opts.tags);
            && segment.lang == Nearest(events[..k], openers)
            && segment.block == if openers == [] then "" else Innermost(events[..k], openers).tag
  {
    k := DocumentSegments(events, opts, segment);
    ProcessSettles(events[..k], opts);
    ContextOfSegment(Process(events[..k], opts), segment, opts);
    ProtectedExactlyThere(events[..k], opts);
    TopBlock(events[..k], opts.tags);
  }

  // ---------------------------------------------------------------- the language of the document

  /** The start tags at the top level of the document. */
  function TopStarts(events: seq<Event>, tags: Vocabulary): seq<TagEvent> {
    if events == [] then []
    else
      var before, event := events[..|events| - 1], events[|events| - 1];
      TopStarts(before, tags) +
        if IsStart(event) && !Hidden(before, event, tags) && BlocksAt(before, tags) == [] then [event.start] else []
  }

  /** The language of the only top-level element. */
  function OnlyLanguage(starts: seq<TagEvent>): Option<string> { if |starts| == 1 then starts[0].lang else None }

  predicate Counted(s: State, starts: seq<TagEvent>) {
    s.topLevel == |starts| && s.rootLang == OnlyLanguage(starts) && !s.unterminated
  }

  predicate SameRoot(s: State, t: State) {
    t.topLevel == s.topLevel && t.rootLang == s.rootLang && t.unterminated == s.unterminated
  }

  lemma {:induction false} EmitAllKeepsRoot(s: State, chunks: seq<seq<Token>>, unescape: string -> string)
    ensures SameRoot(s, EmitAll(s, chunks, unescape))
  {
    if chunks != [] { EmitAllKeepsRoot(s, chunks[..|chunks| - 1], unescape); }
  }

  lemma FlushKeepsRoot(s: State, opts: Settings)
    ensures SameRoot(s, Flush(s, opts))
  {
    var m := Materialize(s);
    if m.run != [] {
      EmitAllKeepsRoot(m.(run := [], parts := m.parts + Raws(m.run[..Core(m.run, opts.tags.void).0])), RunChunks(m.run, opts), opts.unescape);
    }
  }

  lemma AppendKeepsRoot(s: State, token: Token)
    ensures SameRoot(s, Materialize(s)) && SameRoot(s, Append(s, token))
  {
  }

  lemma EndRegionKeepsRoot(s: State)
    requires s.skip.Some?
    ensures SameRoot(s, EndRegion(s))
  {
    AppendKeepsRoot(s.(skip := None), Token(Protected, Join(s.skip.value.buffer), "", false));
  }

  lemma TextKeepsRoot(s: State, raw: string)
    ensures SameRoot(s, AddText(s, raw)) && SameRoot(s, AddOpaque(s, raw))
  {
    AppendKeepsRoot(s, Token(Protected, raw, "", false));
  }

  lemma OpenRegionKeepsRoot(s: State, tag: string, raw: string, opts: Settings)
    ensures SameRoot(s, OpenRegion(s, tag, raw, opts))
  {
    FlushKeepsRoot(s, opts);
    AppendKeepsRoot(if InlineTag(tag, opts.tags) then s else Flush(s, opts), TextToken(""));
  }

  lemma StartOutsideKeepsRoot(s: State, event: TagEvent, raw: string, void: bool, opts: Settings)
    ensures SameRoot(s, StartOutside(s, event, raw, void, opts))
  {
    match RoleOf(event, void, opts.tags)
    case Region => OpenRegionKeepsRoot(s, event.tag, raw, opts);
    case Opaque => TextKeepsRoot(s, raw);
    case Inline => AppendKeepsRoot(s, Token(Tag, raw, event.tag, false));
    case Block => FlushKeepsRoot(s, opts);
  }

  lemma EndOutsideKeepsRoot(s: State, tag: string, raw: string, opts: Settings)
    ensures SameRoot(s, EndOutside(s, tag, raw, opts))
  {
    if tag in opts.tags.inline { AppendKeepsRoot(s, Token(Tag, raw, tag, true)); } else { FlushKeepsRoot(s, opts); }
  }

  lemma EndKeepsRoot(s: State, tag: string, raw: string, opts: Settings)
    ensures SameRoot(s, End(s, tag, raw, opts))
  {
    if s.skip.None? {
      EndOutsideKeepsRoot(s, tag, raw, opts);
    } else {
      match EndInside(s.skip.value, tag, raw)
      case Stays(_) =>
      case Completes(skip) => EndRegionKeepsRoot(s.(skip := Some(skip)));
      case BreaksOff =>
        EndRegionKeepsRoot(s);
        EndOutsideKeepsRoot(EndRegion(s), tag, raw, opts);
    }
  }

  lemma OutOfRegionKeepsRoot(s: State)
    ensures SameRoot(s, OutOfRegion(s)) && OutOfRegion(s).stack == s.stack
  {
    if s.skip.Some? { EndRegionKeepsRoot(s); }
  }

  lemma StartKeepsRoot(s: State, event: TagEvent, raw: string, void: bool, opts: Settings)
    ensures InsideRegion(s.skip, event, opts.tags) ==> SameRoot(s, Start(s, event, raw, void, opts))
    ensures !InsideRegion(s.skip, event, opts.tags) ==> SameRoot(CountRoot(s, event.lang), Start(s, event, raw, void, opts))
  {
    OutOfRegionKeepsRoot(s);
    StartOutsideKeepsRoot(CountRoot(OutOfRegion(s), event.lang), event, raw, void, opts);
  }

  lemma HandleKeepsRoot(s: State, event: Event, opts: Settings)
    ensures if IsStart(event) && !InsideRegion(s.skip, event.start, opts.tags)
            then SameRoot(CountRoot(s, event.start.lang), Handle(s, event, opts))
            else SameRoot(s, Handle(s, event, opts))
  {
    match event
    case StartTag(start) => StartKeepsRoot(s, start, RawText(event), start.tag in opts.tags.void, opts);
    case StartEndTag(start) => StartKeepsRoot(s, start, RawText(event), true, opts);
    case EndTag(tag) => EndKeepsRoot(s, tag, RawText(event), opts);
    case Data(_) =>
    case EntityRef(_) =>
    case CharRef(_) =>
    case Comment(_) =>
    case Declaration(_) =>
    case MarkedSection(_) =>
    case Instruction(_) =>
  }

  lemma HiddenIsInside(s: State, before: seq<Event>, event: Event, tags: Vocabulary)
    requires Agrees(s, before, tags) && IsStart(event)
    ensures InsideRegion(s.skip, event.start, tags) <==> Hidden(before, event, tags)
  {
  }

  lemma RootCounted(s: State, t: State, starts: seq<TagEvent>, start: TagEvent)
    requires Counted(s, starts) && SameRoot(CountRoot(s, start.lang), t)
    ensures Counted(t, starts + if s.stack == [] then [start] else [])
  {
  }

  lemma TopStartsStep(before: seq<Event>, event: Event, tags: Vocabulary)
    ensures TopStarts(before + [event], tags) == TopStarts(before, tags) +
      if IsStart(event) && !Hidden(before, event, tags) && BlocksAt(before, tags) == [] then [event.start] else []
  {
    assert (before + [event])[..|before|] == before;
  }

  lemma NextCounted(s: State, t: State, before: seq<Event>, event: Event, tags: Vocabulary)
    requires Agrees(s, before, tags) && Counted(s, TopStarts(before, tags))
    requires if IsStart(event) && !InsideRegion(s.skip, event.start, tags) then SameRoot(CountRoot(s, event.start.lang), t) else SameRoot(s, t)
    ensures Counted(t, TopStarts(before + [event], tags))
  {
    TopStartsStep(before, event, tags);
    if IsStart(event) {
      HiddenIsInside(s, before, event, tags);
      if !Hidden(before, event, tags) { RootCounted(s, t, TopStarts(before, tags), event.start); }
    }
  }

  lemma {:induction false} ProcessCounts(events: seq<Event>, opts: Settings)
    ensures Counted(Process(events, opts), TopStarts(events, opts.tags))
  {
    if events != [] {
      var before, event := events[..|events| - 1], events[|events| - 1];
      assert events == before + [event];
      ProcessCounts(before, opts);
      ScanAgrees(before, opts);
      HandleKeepsRoot(Process(before, opts), event, opts);
      NextCounted(Process(before, opts), Process(events, opts), before, event, opts.tags);
    }
  }

  /** The document has the language of its only top-level element, and none if there are several. */
  lemma RootLanguage(events: seq<Event>, opts: Settings)
    ensures DocumentOf(events, opts).rootLang == OnlyLanguage(TopStarts(events, opts.tags))
  {
    var s := Process(events, opts);
    ProcessCounts(events, opts);
    FlushKeepsRoot(if s.skip.Some? then EndRegion(s.(unterminated := true)) else s, opts);
  }

  /** A document is unterminated exactly when it ends inside a protected stretch. */
  lemma UnterminatedExactlyWhen(events: seq<Event>, opts: Settings)
    ensures DocumentOf(events, opts).unterminated <==> OpenedAt(events, opts.tags).Some?
  {
    var s := Process(events, opts);
    ProcessCounts(events, opts);
    ProtectedExactlyThere(events, opts);
    FlushKeepsRoot(if s.skip.Some? then EndRegion(s.(unterminated := true)) else s, opts);
  }
}
