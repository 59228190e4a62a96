/** Which parts of a document are protected, told from the parser events and the vocabulary alone: where
    a protected stretch opens and ends, and which elements are open outside it. */
module ProtectedStretches {
  import opened Common
  import opened TagPairs
  import opened Segmenter
  import opened SegmenterSteps

  predicate IsStart(event: Event) { event.StartTag? || event.StartEndTag? }

  predicate IsVoid(event: Event, tags: Vocabulary)
    requires IsStart(event)
  {
    event.StartEndTag? || event.start.tag in tags.void
  }

  /** Elements whose inside is not translated: skipped ones, inline code, and translate="no". */
  predicate Untranslated(start: TagEvent, tags: Vocabulary) {
    start.tag in tags.skipped || start.tag in tags.protectedInline || start.noTranslate
  }

  /** A start tag that opens a protected stretch. */
  predicate Protecting(event: Event, tags: Vocabulary) {
    IsStart(event) && !IsVoid(event, tags) && Untranslated(event.start, tags)
  }

  /** How deep the opening element is nested in itself. */
  function Depth(inside: seq<Event>, name: string, tags: Vocabulary): int {
    if inside == [] then 1
    else
      var before, event := Depth(inside[..|inside| - 1], name, tags), inside[|inside| - 1];
      if IsStart(event) && !IsVoid(event, tags) && event.start.tag == name then before + 1
      else if event == EndTag(name) then before - 1
      else before
  }

  /** How many elements of another name are open inside. */
  function Unclosed(inside: seq<Event>, name: string, tags: Vocabulary): nat {
    if inside == [] then 0
    else
      var before, event := Unclosed(inside[..|inside| - 1], name, tags), inside[|inside| - 1];
      if IsStart(event) && !IsVoid(event, tags) && event.start.tag == name then before + 1
      else if event == EndTag(name) && before > 0 then before - 1
      else before
  }

  /** The event ends the stretch that the event at `i` opened: its own balanced end tag, the end tag of an
      element it lies in, or for an inline element a block start tag. */
  predicate Ends(events: seq<Event>, i: nat, event: Event, tags: Vocabulary)
    requires i < |events| && IsStart(events[i])
    decreases |events|, 2
  {
    var name, inside := events[i].start.tag, events[i + 1..];
    if event.EndTag? then
      if event.tag == name then Depth(inside, name, tags) <= 1
      else Unclosed(inside, event.tag, tags) == 0 && event.tag in Ancestors(events[..i + 1], tags)
    else
      IsStart(event) && InlineTag(name, tags) && !InlineTag(event.start.tag, tags)
  }

  /** The names of all open elements. */
  function Ancestors(events: seq<Event>, tags: Vocabulary): seq<string>
    decreases |events|, 1
  {
    Names(BlocksAt(events, tags)) + InlinesAt(events, tags)
  }

  /** The event that opened the protected stretch the document is in, if it is in one. */
  function OpenedAt(events: seq<Event>, tags: Vocabulary): (r: Option<nat>)
    ensures r.Some? ==> r.value < |events| && IsStart(events[r.value])
    decreases |events|, 2
  {
    if events == [] then None
    else
      var before, event := events[..|events| - 1], events[|events| - 1];
      var open := OpenedAt(before, tags);
      if open.Some? && !Ends(before, open.value, event, tags) then open
      else if Protecting(event, tags) then Some(|before|)
      else None
  }

  /** The event is no more than text to a protected stretch. */
  predicate Hidden(before: seq<Event>, event: Event, tags: Vocabulary)
    decreases |before|, 3
  {
    var open := OpenedAt(before, tags);
    open.Some? && !Ends(before, open.value, event, tags)
  }

  /** The event is the own end tag of a protected stretch. */
  predicate OwnEnd(before: seq<Event>, event: Event, tags: Vocabulary)
    decreases |before|, 3
  {
    var open := OpenedAt(before, tags);
    open.Some? && event == EndTag(before[open.value].start.tag)
  }

  /** The blocks that are open, with the language in force in each. */
  function BlocksAt(events: seq<Event>, tags: Vocabulary): seq<Segmenter.Block>
    decreases |events|, 0
  {
    if events == [] then []
    else
      var before, event := events[..|events| - 1], events[|events| - 1];
      var blocks := BlocksAt(before, tags);
      if Hidden(before, event, tags) || OwnEnd(before, event, tags) then blocks
      else if IsStart(event) then
        if Protecting(event, tags) || InlineTag(event.start.tag, tags) then blocks
        else OpenBlock(blocks, event.start.tag, event.start.lang, IsVoid(event, tags), tags)
      else if event.EndTag? && event.tag !in tags.inline then CloseNamed(blocks, event.tag)
      else blocks
  }

  /** The inline elements that are open in the present run of text, by the strict stack. */
  function InlinesAt(events: seq<Event>, tags: Vocabulary): seq<string>
    decreases |events|, 0
  {
    if events == [] then []
    else
      var before, event := events[..|events| - 1], events[|events| - 1];
      var inlines := InlinesAt(before, tags);
      if Hidden(before, event, tags) || OwnEnd(before, event, tags) then inlines
      else if IsStart(event) then
        if !InlineTag(event.start.tag, tags) then []
        else if Untranslated(event.start, tags) || event.start.tag in tags.void then inlines
        else inlines + [event.start.tag]
      else if event.EndTag? then
        if event.tag !in tags.inline then []
        else if inlines != [] && inlines[|inlines| - 1] == event.tag && event.tag !in tags.void then inlines[..|inlines| - 1]
        else inlines
      else inlines
  }

  // ---------------------------------------------------------------- the inline tags open in a run

  lemma {:induction false} MatchPrefix(run: seq<Token>, token: Token, void: set<string>, n: nat)
    requires n <= |run|
    ensures MatchTo(run + [token], void, n) == MatchTo(run, void, n)
    decreases n
  {
    if n > 0 { MatchPrefix(run, token, void, n - 1); }
  }

  lemma NameOnePushed(run: seq<Token>, token: Token, void: set<string>)
    ensures OpenNames(run + [token], void) == NamePushed(OpenNames(run, void), token, void)
  {
    MatchPrefix(run, token, void, |run|);
    var open := MatchTo(run, void, |run|).1;
    assert NamesAt(run + [token], open) == NamesAt(run, open);
    NextNames(run + [token], void, |run|);
  }

  /** The inline tags open in what has been collected. */
  function OpenIn(s: State, void: set<string>): seq<string> { OpenNames(s.run, void) }

  lemma AppendNames(s: State, token: Token, void: set<string>)
    ensures OpenIn(Materialize(s), void) == OpenIn(s, void)
    ensures OpenIn(Append(s, token), void) == NamePushed(OpenIn(s, void), token, void)
  {
    if s.pending != [] { NameOnePushed(s.run, TextToken(Join(s.pending)), void); }
    NameOnePushed(Materialize(s).run, token, void);
  }

  lemma TextNames(s: State, raw: string, void: set<string>)
    ensures OpenIn(AddText(s, raw), void) == OpenIn(s, void)
  {
    if s.skip.None? && s.pending == [] && s.run != [] && s.run[|s.run| - 1].kind.Text? {
      var init, last := s.run[..|s.run| - 1], s.run[|s.run| - 1];
      assert s.run == init + [last];
      NameOnePushed(init, last, void);
    }
  }

  lemma OpaqueNames(s: State, raw: string, void: set<string>)
    ensures OpenIn(AddOpaque(s, raw), void) == OpenIn(s, void)
  {
    AppendNames(s, Token(Protected, raw, "", false), void);
  }

  lemma EndRegionNames(s: State, void: set<string>)
    requires s.skip.Some?
    ensures OpenIn(EndRegion(s), void) == OpenIn(s, void)
    ensures EndRegion(s).skip.None? && EndRegion(s).stack == s.stack
  {
    AppendNames(s.(skip := None), Token(Protected, Join(s.skip.value.buffer), "", false), void);
  }

  // ---------------------------------------------------------------- flushing leaves nothing open

  lemma {:induction false} EmitAllKeeps(s: State, chunks: seq<seq<Token>>, unescape: string -> string)
    ensures var t := EmitAll(s, chunks, unescape); t.run == s.run && t.stack == s.stack && t.skip == s.skip && t.pending == s.pending
  {
    if chunks != [] { EmitAllKeeps(s, chunks[..|chunks| - 1], unescape); }
  }

  lemma FlushKeeps(s: State, opts: Settings)
    ensures var t := Flush(s, opts); t.run == [] && t.pending == [] && t.stack == s.stack && t.skip == s.skip
    ensures OpenIn(Flush(s, opts), opts.tags.void) == []
  {
    var m := Materialize(s);
    if m.run != [] {
      EmitAllKeeps(m.(run := [], parts := m.parts + Raws(m.run[..Core(m.run, opts.tags.void).0])), RunChunks(m.run, opts), opts.unescape);
    }
  }

  // ---------------------------------------------------------------- inside a protected stretch

  /** The machine's region is the stretch that the event at `i` opened. */
  ghost predicate RegionAgrees(skip: Skip, events: seq<Event>, i: nat, tags: Vocabulary) {
    && i < |events| && IsStart(events[i])
    && skip.name == events[i].start.tag && skip.toRun == InlineTag(skip.name, tags)
    && CountsAgree(skip, events[i + 1..], tags)
    && forall name :: skip.closers[name] > 0 <==> name in Ancestors(events[..i + 1], tags)
  }

  ghost predicate CountsAgree(skip: Skip, inside: seq<Event>, tags: Vocabulary) {
    && skip.depth == Depth(inside, skip.name, tags) && skip.depth >= 1
    && skip.inner[skip.name] == 0
    && forall name :: name != skip.name ==> skip.inner[name] == Unclosed(inside, name, tags)
  }

  lemma Inside(before: seq<Event>, event: Event, i: nat)
    requires i < |before|
    ensures (before + [event])[i + 1..] == before[i + 1..] + [event]
    ensures (before + [event])[..i + 1] == before[..i + 1] && (before + [event])[i] == before[i]
  {
  }

  lemma CountStep(inside: seq<Event>, event: Event, name: string, tags: Vocabulary)
    ensures Depth(inside + [event], name, tags) ==
      (if IsStart(event) && !IsVoid(event, tags) && event.start.tag == name then Depth(inside, name, tags) + 1
       else if event == EndTag(name) then Depth(inside, name, tags) - 1
       else Depth(inside, name, tags))
    ensures Unclosed(inside + [event], name, tags) ==
      (if IsStart(event) && !IsVoid(event, tags) && event.start.tag == name then Unclosed(inside, name, tags) + 1
       else if event == EndTag(name) && Unclosed(inside, name, tags) > 0 then Unclosed(inside, name, tags) - 1
       else Unclosed(inside, name, tags))
  {
    assert (inside + [event])[..|inside|] == inside;
  }

  lemma QuietInside(skip: Skip, inside: seq<Event>, event: Event, buffer: seq<string>, tags: Vocabulary)
    requires CountsAgree(skip, inside, tags) && !IsStart(event) && !event.EndTag?
    ensures CountsAgree(skip.(buffer := buffer), inside + [event], tags)
  {
    forall name { CountStep(inside, event, name, tags); }
  }

  lemma StartedInside(skip: Skip, inside: seq<Event>, event: Event, tags: Vocabulary)
    requires CountsAgree(skip, inside, tags) && IsStart(event)
    ensures CountsAgree(StartInside(skip, event.start.tag, RawText(event), IsVoid(event, tags)), inside + [event], tags)
  {
    forall name { CountStep(inside, event, name, tags); }
  }

  lemma EndedInside(skip: Skip, inside: seq<Event>, tag: string, raw: string, tags: Vocabulary)
    requires CountsAgree(skip, inside, tags)
    ensures var move := EndInside(skip, tag, raw);
            && (move.Completes? <==> tag == skip.name && Depth(inside, tag, tags) <= 1)
            && (move.BreaksOff? <==> tag != skip.name && Unclosed(inside, tag, tags) == 0 && skip.closers[tag] > 0)
  {
  }

  lemma EndedDepth(skip: Skip, inside: seq<Event>, tag: string, raw: string, tags: Vocabulary)
    requires CountsAgree(skip, inside, tags) && EndInside(skip, tag, raw).Stays?
    ensures var next := EndInside(skip, tag, raw).skip;
            next.name == skip.name && next.depth >= 1 && next.depth == Depth(inside + [EndTag(tag)], skip.name, tags)
  {
    CountStep(inside, EndTag(tag), skip.name, tags);
  }

  lemma EndedCount(skip: Skip, inside: seq<Event>, tag: string, raw: string, name: string, tags: Vocabulary)
    requires CountsAgree(skip, inside, tags) && EndInside(skip, tag, raw).Stays?
    ensures EndInside(skip, tag, raw).skip.inner[name] == if name == skip.name then 0 else Unclosed(inside + [EndTag(tag)], name, tags)
  {
    CountStep(inside, EndTag(tag), name, tags);
  }

  lemma EndStays(skip: Skip, inside: seq<Event>, tag: string, raw: string, tags: Vocabulary)
    requires CountsAgree(skip, inside, tags) && EndInside(skip, tag, raw).Stays?
    ensures CountsAgree(EndInside(skip, tag, raw).skip, inside + [EndTag(tag)], tags)
  {
    EndedDepth(skip, inside, tag, raw, tags);
    forall name { EndedCount(skip, inside, tag, raw, name, tags); }
  }

  // ---------------------------------------------------------------- the machine and the scan

  /** The machine is inside a region exactly where the scan finds a protected stretch, and both know the
      same open elements. */
  ghost predicate Agrees(s: State, events: seq<Event>, tags: Vocabulary) {
    && s.stack == BlocksAt(events, tags) && OpenIn(s, tags.void) == InlinesAt(events, tags)
    && match OpenedAt(events, tags)
       case None => s.skip.None?
       case Some(i) => s.skip.Some? && RegionAgrees(s.skip.value, events, i, tags)
  }

  /** An event inside a stretch that does not end it changes nothing else. */
  lemma HiddenKeeps(before: seq<Event>, event: Event, tags: Vocabulary)
    requires Hidden(before, event, tags)
    ensures var events := before + [event];
            && BlocksAt(events, tags) == BlocksAt(before, tags) && InlinesAt(events, tags) == InlinesAt(before, tags)
            && OpenedAt(events, tags) == OpenedAt(before, tags)
  {
    assert (before + [event])[..|before|] == before;
  }

  /** One more event in a running stretch. */
  lemma RegionStays(skip: Skip, next: Skip, before: seq<Event>, event: Event, i: nat, tags: Vocabulary)
    requires RegionAgrees(skip, before, i, tags)
    requires next.name == skip.name && next.toRun == skip.toRun && next.closers == skip.closers
    requires CountsAgree(next, before[i + 1..] + [event], tags)
    ensures RegionAgrees(next, before + [event], i, tags)
  {
    Inside(before, event, i);
  }

  lemma StaysAgrees(s: State, before: seq<Event>, event: Event, skip: Skip, tags: Vocabulary)
    requires Agrees(s, before, tags) && Hidden(before, event, tags)
    requires skip.name == s.skip.value.name && skip.toRun == s.skip.value.toRun && skip.closers == s.skip.value.closers
    requires CountsAgree(skip, before[OpenedAt(before, tags).value + 1..] + [event], tags)
    ensures Agrees(s.(skip := Some(skip)), before + [event], tags)
  {
    HiddenKeeps(before, event, tags);
    RegionStays(s.skip.value, skip, before, event, OpenedAt(before, tags).value, tags);
  }

  lemma HiddenStartStays(s: State, before: seq<Event>, event: Event, tags: Vocabulary)
    requires Agrees(s, before, tags) && Hidden(before, event, tags) && IsStart(event)
    ensures InsideRegion(s.skip, event.start, tags)
  {
  }

  lemma HiddenStart(s: State, before: seq<Event>, event: Event, opts: Settings)
    requires Agrees(s, before, opts.tags) && Hidden(before, event, opts.tags) && IsStart(event)
    ensures Agrees(Handle(s, event, opts), before + [event], opts.tags)
  {
    var next := StartInside(s.skip.value, event.start.tag, RawText(event), IsVoid(event, opts.tags));
    StartedInside(s.skip.value, before[OpenedAt(before, opts.tags).value + 1..], event, opts.tags);
    HiddenStartStays(s, before, event, opts.tags);
    StaysAgrees(s, before, event, next, opts.tags);
    assert Handle(s, event, opts) == s.(skip := Some(next));
  }

  lemma HiddenEndStays(s: State, before: seq<Event>, tag: string, tags: Vocabulary)
    requires Agrees(s, before, tags) && Hidden(before, EndTag(tag), tags)
    ensures var move := EndInside(s.skip.value, tag, RawText(EndTag(tag)));
            move.Stays? && CountsAgree(move.skip, before[OpenedAt(before, tags).value + 1..] + [EndTag(tag)], tags)
  {
    var skip, inside := s.skip.value, before[OpenedAt(before, tags).value + 1..];
    EndedInside(skip, inside, tag, RawText(EndTag(tag)), tags);
    EndStays(skip, inside, tag, RawText(EndTag(tag)), tags);
  }

  lemma EndKeepsRegion(s: State, tag: string, opts: Settings)
    requires s.skip.Some? && EndInside(s.skip.value, tag, RawText(EndTag(tag))).Stays?
    ensures Handle(s, EndTag(tag), opts) == s.(skip := Some(EndInside(s.skip.value, tag, RawText(EndTag(tag))).skip))
  {
  }

  lemma HiddenEnd(s: State, before: seq<Event>, tag: string, tags: Vocabulary)
    requires Agrees(s, before, tags) && Hidden(before, EndTag(tag), tags)
    ensures var move := EndInside(s.skip.value, tag, RawText(EndTag(tag)));
            move.Stays? && Agrees(s.(skip := Some(move.skip)), before + [EndTag(tag)], tags)
  {
    HiddenEndStays(s, before, tag, tags);
    StaysAgrees(s, before, EndTag(tag), EndInside(s.skip.value, tag, RawText(EndTag(tag))).skip, tags);
  }

  lemma HiddenText(s: State, before: seq<Event>, event: Event, opts: Settings)
    requires Agrees(s, before, opts.tags) && s.skip.Some? && !IsStart(event) && !event.EndTag?
    ensures Agrees(Handle(s, event, opts), before + [event], opts.tags)
  {
    var skip := s.skip.value;
    var buffer := skip.buffer + [RawText(event)];
    QuietInside(skip, before[OpenedAt(before, opts.tags).value + 1..], event, buffer, opts.tags);
    StaysAgrees(s, before, event, skip.(buffer := buffer), opts.tags);
  }

  // ---------------------------------------------------------------- outside protected stretches

  /** Outside every region, with the elements open that the scan knows. */
  ghost predicate OutsideAfter(s: State, events: seq<Event>, tags: Vocabulary) {
    s.skip.None? && s.stack == BlocksAt(events, tags) && OpenIn(s, tags.void) == InlinesAt(events, tags)
  }

  lemma LeftRegion(s: State, before: seq<Event>, tags: Vocabulary)
    requires Agrees(s, before, tags)
    ensures OutsideAfter(OutOfRegion(s), before, tags)
  {
    if s.skip.Some? { EndRegionNames(s, tags.void); }
  }

  /** What an event outside the protected stretches does to the open elements. */
  lemma ShownStep(before: seq<Event>, event: Event, tags: Vocabulary)
    requires !Hidden(before, event, tags) && !OwnEnd(before, event, tags)
    ensures var events := before + [event];
            && OpenedAt(events, tags) == (if Protecting(event, tags) then Some(|before|) else None)
            && (IsStart(event) ==>
                && BlocksAt(events, tags) == (if Protecting(event, tags) || InlineTag(event.start.tag, tags) then BlocksAt(before, tags)
                    else OpenBlock(BlocksAt(before, tags), event.start.tag, event.start.lang, IsVoid(event, tags), tags))
                && InlinesAt(events, tags) == (if !InlineTag(event.start.tag, tags) then []
                    else if Untranslated(event.start, tags) then InlinesAt(before, tags)
                    else NamePushed(InlinesAt(before, tags), Token(Tag, RawText(event), event.start.tag, false), tags.void)))
            && (event.EndTag? ==>
                && BlocksAt(events, tags) == (if event.tag in tags.inline then BlocksAt(before, tags) else CloseNamed(BlocksAt(before, tags), event.tag))
                && InlinesAt(events, tags) == (if event.tag !in tags.inline then []
                    else NamePushed(InlinesAt(before, tags), Token(Tag, RawText(event), event.tag, true), tags.void)))
            && (!IsStart(event) && !event.EndTag? ==>
                BlocksAt(events, tags) == BlocksAt(before, tags) && InlinesAt(events, tags) == InlinesAt(before, tags))
  {
    assert (before + [event])[..|before|] == before;
  }

  lemma RegionBegins(tag: string, raw: string, closers: multiset<string>, events: seq<Event>, tags: Vocabulary)
    requires events != [] && IsStart(events[|events| - 1]) && events[|events| - 1].start.tag == tag
    requires closers == multiset(Names(BlocksAt(events, tags))) + multiset(InlinesAt(events, tags))
    ensures RegionAgrees(Skip(tag, InlineTag(tag, tags), [raw], 1, multiset{}, closers), events, |events| - 1, tags)
  {
    var skip := Skip(tag, InlineTag(tag, tags), [raw], 1, multiset{}, closers);
    assert events[..|events|] == events && events[|events|..] == [];
    assert CountsAgree(skip, [], tags);
    ClosersAre(Names(BlocksAt(events, tags)), InlinesAt(events, tags));
  }

  /** A region that has just been opened. */
  lemma RegionOpened(s: State, before: seq<Event>, event: Event, opts: Settings)
    requires OutsideAfter(s, before, opts.tags) && !Hidden(before, event, opts.tags) && Protecting(event, opts.tags)
    ensures Agrees(OpenRegion(s, event.start.tag, RawText(event), opts), before + [event], opts.tags)
  {
    var events, tag := before + [event], event.start.tag;
    ShownStep(before, event, opts.tags);
    var f := if InlineTag(tag, opts.tags) then s else Flush(s, opts);
    FlushKeeps(s, opts);
    AppendNames(f, TextToken(""), opts.tags.void);
    RegionBegins(tag, RawText(event), OpenRegion(s, tag, RawText(event), opts).skip.value.closers, events, opts.tags);
  }

  lemma ClosersAre(blocks: seq<string>, inlines: seq<string>)
    ensures forall name :: (multiset(blocks) + multiset(inlines))[name] > 0 <==> name in blocks + inlines
  {
    forall name ensures (multiset(blocks) + multiset(inlines))[name] > 0 <==> name in blocks + inlines {
      assert name in multiset(blocks) <==> name in blocks;
      assert name in multiset(inlines) <==> name in inlines;
    }
  }

  lemma ShownOpaque(s: State, before: seq<Event>, event: Event, opts: Settings)
    requires OutsideAfter(s, before, opts.tags) && !Hidden(before, event, opts.tags) && IsStart(event)
    requires IsVoid(event, opts.tags) && Untranslated(event.start, opts.tags) && InlineTag(event.start.tag, opts.tags)
    ensures Agrees(AddOpaque(s, RawText(event)), before + [event], opts.tags)
  {
    ShownStep(before, event, opts.tags);
    OpaqueNames(s, RawText(event), opts.tags.void);
  }

  lemma ShownInline(s: State, before: seq<Event>, event: Event, opts: Settings)
    requires OutsideAfter(s, before, opts.tags) && !Hidden(before, event, opts.tags) && IsStart(event)
    requires !Untranslated(event.start, opts.tags) && InlineTag(event.start.tag, opts.tags)
    ensures Agrees(Append(s, Token(Tag, RawText(event), event.start.tag, false)), before + [event], opts.tags)
  {
    ShownStep(before, event, opts.tags);
    AppendNames(s, Token(Tag, RawText(event), event.start.tag, false), opts.tags.void);
  }

  lemma ShownBlock(s: State, before: seq<Event>, event: Event, opts: Settings)
    requires OutsideAfter(s, before, opts.tags) && !Hidden(before, event, opts.tags) && IsStart(event)
    requires !Protecting(event, opts.tags) && !InlineTag(event.start.tag, opts.tags)
    ensures Agrees(StartOutside(s, event.start, RawText(event), IsVoid(event, opts.tags), opts), before + [event], opts.tags)
  {
    ShownStep(before, event, opts.tags);
    FlushKeeps(s, opts);
  }

  lemma ShownStart(s: State, before: seq<Event>, event: Event, opts: Settings)
    requires OutsideAfter(s, before, opts.tags) && !Hidden(before, event, opts.tags) && IsStart(event)
    ensures Agrees(StartOutside(s, event.start, RawText(event), IsVoid(event, opts.tags), opts), before + [event], opts.tags)
  {
    if Protecting(event, opts.tags) {
      RegionOpened(s, before, event, opts);
    } else if Untranslated(event.start, opts.tags) && InlineTag(event.start.tag, opts.tags) {
      ShownOpaque(s, before, event, opts);
    } else if InlineTag(event.start.tag, opts.tags) {
      ShownInline(s, before, event, opts);
    } else {
      ShownBlock(s, before, event, opts);
    }
  }

  lemma ShownEnd(s: State, before: seq<Event>, event: Event, opts: Settings)
    requires OutsideAfter(s, before, opts.tags) && event.EndTag?
    requires !Hidden(before, event, opts.tags) && !OwnEnd(before, event, opts.tags)
    ensures Agrees(EndOutside(s, event.tag, RawText(event), opts), before + [event], opts.tags)
  {
    ShownStep(before, event, opts.tags);
    AppendNames(s, Token(Tag, RawText(event), event.tag, true), opts.tags.void);
    FlushKeeps(s, opts);
  }

  lemma SameOutside(s: State, t: State, before: seq<Event>, event: Event, tags: Vocabulary)
    requires OutsideAfter(s, before, tags) && OpenedAt(before, tags).None? && !IsStart(event) && !event.EndTag?
    requires t.skip.None? && t.stack == s.stack && OpenIn(t, tags.void) == OpenIn(s, tags.void)
    ensures Agrees(t, before + [event], tags)
  {
    ShownStep(before, event, tags);
  }

  lemma ShownText(s: State, before: seq<Event>, event: Event, opts: Settings)
    requires OutsideAfter(s, before, opts.tags) && OpenedAt(before, opts.tags).None? && !IsStart(event) && !event.EndTag?
    ensures Agrees(Handle(s, event, opts), before + [event], opts.tags)
  {
    TextNames(s, RawText(event), opts.tags.void);
    OpaqueNames(s, RawText(event), opts.tags.void);
    SameOutside(s, Handle(s, event, opts), before, event, opts.tags);
  }

  /** The own end tag of a stretch does no more than end it. */
  lemma OwnEnded(s: State, before: seq<Event>, event: Event, opts: Settings)
    requires Agrees(s, before, opts.tags) && OwnEnd(before, event, opts.tags) && !Hidden(before, event, opts.tags)
    ensures Agrees(Handle(s, event, opts), before + [event], opts.tags)
  {
    var skip := s.skip.value;
    assert (before + [event])[..|before|] == before;
    EndedInside(skip, before[OpenedAt(before, opts.tags).value + 1..], event.tag, RawText(event), opts.tags);
    EndRegionNames(s.(skip := Some(EndInside(skip, event.tag, RawText(event)).skip)), opts.tags.void);
  }

  // ---------------------------------------------------------------- every document

  lemma StartAgrees(s: State, before: seq<Event>, event: Event, opts: Settings)
    requires Agrees(s, before, opts.tags) && IsStart(event)
    ensures Agrees(Handle(s, event, opts), before + [event], opts.tags)
  {
    if Hidden(before, event, opts.tags) {
      HiddenStart(s, before, event, opts);
    } else {
      LeftRegion(s, before, opts.tags);
      ShownStart(CountRoot(OutOfRegion(s), event.start.lang), before, event, opts);
    }
  }

  lemma EndAgrees(s: State, before: seq<Event>, event: Event, opts: Settings)
    requires Agrees(s, before, opts.tags) && event.EndTag?
    ensures Agrees(Handle(s, event, opts), before + [event], opts.tags)
  {
    if Hidden(before, event, opts.tags) {
      HiddenEnd(s, before, event.tag, opts.tags);
      EndKeepsRegion(s, event.tag, opts);
    } else if OwnEnd(before, event, opts.tags) {
      OwnEnded(s, before, event, opts);
    } else {
      LeftRegion(s, before, opts.tags);
      ShownEnd(OutOfRegion(s), before, event, opts);
      if s.skip.Some? { EndedInside(s.skip.value, before[OpenedAt(before, opts.tags).value + 1..], event.tag, RawText(event), opts.tags); }
    }
  }

  lemma {:induction false} ScanAgrees(events: seq<Event>, opts: Settings)
    ensures Agrees(Process(events, opts), events, opts.tags)
  {
    if events != [] {
      var before, event := events[..|events| - 1], events[|events| - 1];
      assert events == before + [event];
      ScanAgrees(before, opts);
      var s := Process(before, opts);
      if IsStart(event) { StartAgrees(s, before, event, opts); }
      else if event.EndTag? { EndAgrees(s, before, event, opts); }
      else if s.skip.Some? { HiddenText(s, before, event, opts); }
      else { ShownText(s, before, event, opts); }
    }
  }

  /** The machine is inside a region exactly in the protected stretches of the document. */
  lemma ProtectedExactlyThere(events: seq<Event>, opts: Settings)
    ensures Process(events, opts).skip.Some? <==> OpenedAt(events, opts.tags).Some?
    ensures Process(events, opts).stack == BlocksAt(events, opts.tags)
  {
    ScanAgrees(events, opts);
  }
}
