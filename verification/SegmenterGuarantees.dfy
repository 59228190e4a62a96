/** What segmentation guarantees about the text of a document: outside protected regions none that is
    visible is left out of the segments, and a segment is over the limit only where no sentence ends. */
module SegmenterGuarantees {
  import opened Common
  import opened TagPairs
  import opened Sentences
  import opened Chunking
  import opened Segmenter
  import opened SegmenterSteps
  import opened ProtectedStretches

  // ---------------------------------------------------------------- no visible text is left out

  /** The text outside the protected stretches, in order. */
  function OpenText(events: seq<Event>, tags: Vocabulary): string {
    if events == [] then ""
    else
      var before, event := events[..|events| - 1], events[|events| - 1];
      OpenText(before, tags) + if IsText(event) && OpenedAt(before, tags).None? then RawText(event) else ""
  }

  function TextOf(part: Part, marked: bool, segments: seq<Segment>): string {
    match part
    case Slot(index) => if index < |segments| then TextOnly(segments[index].tokens) else ""
    case Raw(text) => if marked then text else ""
  }

  /** The text tokens of the segments in their slots, with the raw parts marked as text. */
  function TextIn(parts: seq<Part>, marks: seq<bool>, segments: seq<Segment>): string
    requires |marks| == |parts|
  {
    if parts == [] then ""
    else TextIn(parts[..|parts| - 1], marks[..|parts| - 1], segments) + TextOf(parts[|parts| - 1], marks[|parts| - 1], segments)
  }

  /** The marked raw parts show nothing. */
  predicate Unseen(parts: seq<Part>, marks: seq<bool>, unescape: string -> string)
    requires |marks| == |parts|
  {
    forall i :: 0 <= i < |parts| && marks[i] && parts[i].Raw? ==> Blank(unescape(parts[i].text))
  }

  ghost predicate Marked(parts: seq<Part>, marks: seq<bool>, segments: seq<Segment>, unescape: string -> string, text: string) {
    |marks| == |parts| && Unseen(parts, marks, unescape) && TextIn(parts, marks, segments) == text
  }

  /** The segments hold all of `text` but raw parts that show nothing. */
  ghost predicate Covers(parts: seq<Part>, segments: seq<Segment>, unescape: string -> string, text: string) {
    SlotsBelow(parts, |segments|) && exists marks :: Marked(parts, marks, segments, unescape, text)
  }

  lemma CoversPart(parts: seq<Part>, segments: seq<Segment>, unescape: string -> string, text: string, part: Part, mark: bool)
    requires Covers(parts, segments, unescape, text)
    requires if part.Slot? then part.index < |segments| else mark ==> Blank(unescape(part.text))
    ensures Covers(parts + [part], segments, unescape, text + TextOf(part, mark, segments))
  {
    var marks :| Marked(parts, marks, segments, unescape, text);
    var more := marks + [mark];
    assert (parts + [part])[..|parts|] == parts && more[..|parts|] == marks;
    assert Marked(parts + [part], more, segments, unescape, text + TextOf(part, mark, segments));
  }

  lemma {:induction false} SameTextIn(parts: seq<Part>, marks: seq<bool>, segments: seq<Segment>, segment: Segment)
    requires |marks| == |parts| && SlotsBelow(parts, |segments|)
    ensures TextIn(parts, marks, segments + [segment]) == TextIn(parts, marks, segments)
  {
    if parts != [] {
      assert parts[|parts| - 1] in parts;
      SameTextIn(parts[..|parts| - 1], marks[..|parts| - 1], segments, segment);
    }
  }

  lemma CoversSegment(parts: seq<Part>, segments: seq<Segment>, unescape: string -> string, text: string, segment: Segment)
    requires Covers(parts, segments, unescape, text)
    ensures Covers(parts, segments + [segment], unescape, text)
  {
    var marks :| Marked(parts, marks, segments, unescape, text);
    SameTextIn(parts, marks, segments, segment);
    assert Marked(parts, marks, segments + [segment], unescape, text);
  }

  lemma {:induction false} CoversRaws(parts: seq<Part>, segments: seq<Segment>, unescape: string -> string, text: string, tokens: seq<Token>)
    requires Covers(parts, segments, unescape, text) && !Visible(tokens, unescape)
    ensures Covers(parts + Raws(tokens), segments, unescape, text + TextOnly(tokens))
  {
    if tokens == [] {
      assert parts + Raws(tokens) == parts && text + TextOnly(tokens) == text;
    } else {
      var init, last := tokens[..|tokens| - 1], tokens[|tokens| - 1];
      assert last in tokens;
      CoversRaws(parts, segments, unescape, text, init);
      CoversPart(parts + Raws(init), segments, unescape, text + TextOnly(init), Raw(last.raw), last.kind.Text?);
      assert parts + Raws(tokens) == parts + Raws(init) + [Raw(last.raw)];
      Regroup(text, TextOnly(init), if last.kind.Text? then last.raw else "");
    }
  }

  ghost predicate StateCovers(s: State, unescape: string -> string, text: string) { Covers(s.parts, s.segments, unescape, text) }

  lemma CoversTrimmed(s: State, trimmed: Trimmed, startsWithText: bool, unescape: string -> string, text: string)
    requires StateCovers(s, unescape, text) && KeepsBlank(unescape) && Blank(trimmed.lead) && Blank(trimmed.tail)
    requires !startsWithText ==> trimmed.lead == ""
    ensures StateCovers(EmitTrimmed(s, trimmed, startsWithText), unescape, text + (trimmed.lead + TextOnly(trimmed.body) + trimmed.tail))
  {
    var segment := Segment(|s.segments|, s.context.0, s.context.1, trimmed.body);
    var segments := s.segments + [segment];
    CoversSegment(s.parts, s.segments, unescape, text, segment);
    var headed := s.parts + if startsWithText then [Raw(trimmed.lead)] else [];
    CoversLead(s.parts, segments, unescape, text, trimmed.lead, startsWithText);
    CoversPart(headed, segments, unescape, text + trimmed.lead, Slot(|s.segments|), false);
    var slotted := headed + [Slot(|s.segments|)];
    CoversTail(slotted, segments, unescape, text + trimmed.lead + TextOnly(trimmed.body), trimmed.tail);
    PartsAssociate(s.parts, if startsWithText then [Raw(trimmed.lead)] else [], [Slot(|s.segments|)], if trimmed.tail != "" then [Raw(trimmed.tail)] else []);
    FourTexts(text, trimmed.lead, TextOnly(trimmed.body), trimmed.tail);
  }

  lemma PartsAssociate(a: seq<Part>, b: seq<Part>, c: seq<Part>, d: seq<Part>)
    ensures a + b + c + d == a + (b + c + d)
  {
  }

  lemma FourTexts(a: string, b: string, c: string, d: string)
    ensures a + b + c + d == a + (b + c + d)
  {
  }

  lemma CoversLead(parts: seq<Part>, segments: seq<Segment>, unescape: string -> string, text: string, lead: string, startsWithText: bool)
    requires Covers(parts, segments, unescape, text) && KeepsBlank(unescape) && Blank(lead) && (!startsWithText ==> lead == "")
    ensures Covers(parts + if startsWithText then [Raw(lead)] else [], segments, unescape, text + lead)
  {
    assert Blank(unescape(lead));
    if startsWithText {
      CoversPart(parts, segments, unescape, text, Raw(lead), true);
    } else {
      assert parts + [] == parts && text + lead == text;
    }
  }

  lemma CoversTail(parts: seq<Part>, segments: seq<Segment>, unescape: string -> string, text: string, tail: string)
    requires Covers(parts, segments, unescape, text) && KeepsBlank(unescape) && Blank(tail)
    ensures Covers(parts + if tail != "" then [Raw(tail)] else [], segments, unescape, text + tail)
  {
    assert Blank(unescape(tail));
    if tail != "" {
      CoversPart(parts, segments, unescape, text, Raw(tail), true);
    } else {
      assert parts + [] == parts && text + tail == text;
    }
  }

  lemma CoversEmit(s: State, tokens: seq<Token>, unescape: string -> string, text: string)
    requires StateCovers(s, unescape, text) && KeepsBlank(unescape)
    ensures StateCovers(Emit(s, tokens, unescape), unescape, text + TextOnly(tokens))
  {
    var kept := NonEmpty(tokens);
    if !Visible(kept, unescape) {
      CoversRaws(s.parts, s.segments, unescape, text, kept);
    } else {
      CoversTrimmed(s, Trim(kept), kept[0].kind.Text?, unescape, text);
    }
  }

  lemma {:induction false} CoversEmitAll(s: State, chunks: seq<seq<Token>>, unescape: string -> string, text: string)
    requires StateCovers(s, unescape, text) && KeepsBlank(unescape)
    ensures StateCovers(EmitAll(s, chunks, unescape), unescape, text + TextOnly(Join(chunks)))
  {
    if chunks == [] {
      assert text + TextOnly(Join(chunks)) == text;
    } else {
      var init, last := chunks[..|chunks| - 1], chunks[|chunks| - 1];
      CoversEmitAll(s, init, unescape, text);
      CoversEmit(EmitAll(s, init, unescape), last, unescape, text + TextOnly(Join(init)));
      TextOnlyConcat(Join(init), last);
      Regroup(text, TextOnly(Join(init)), TextOnly(last));
    }
  }

  lemma {:induction false} TagsHoldNoText(tokens: seq<Token>)
    requires forall t :: t in tokens ==> t.kind.Tag?
    ensures TextOnly(tokens) == ""
  {
    if tokens != [] {
      assert tokens[|tokens| - 1] in tokens;
      TagsHoldNoText(tokens[..|tokens| - 1]);
    }
  }

  lemma CoreHoldsText(tokens: seq<Token>, void: set<string>)
    ensures TextOnly(CoreOf(tokens, void)) == TextOnly(tokens)
    ensures forall t :: t in tokens[..Core(tokens, void).0] || t in tokens[Core(tokens, void).1..] ==> t.kind.Tag?
  {
    var (start, end) := Core(tokens, void);
    assert tokens == tokens[..start] + (tokens[start..end] + tokens[end..]);
    TextOnlyConcat(tokens[..start], tokens[start..end] + tokens[end..]);
    TextOnlyConcat(tokens[start..end], tokens[end..]);
    TagsHoldNoText(tokens[..start]);
    TagsHoldNoText(tokens[end..]);
  }

  lemma CoversRun(s: State, tokens: seq<Token>, opts: Settings, text: string)
    requires StateCovers(s, opts.unescape, text) && KeepsBlank(opts.unescape)
    ensures StateCovers(EmitRun(s, tokens, opts), opts.unescape, text + TextOnly(tokens))
  {
    var (start, end) := Core(tokens, opts.tags.void);
    CoreHoldsText(tokens, opts.tags.void);
    TagsHoldNoText(tokens[..start]);
    TagsHoldNoText(tokens[end..]);
    CoversRaws(s.parts, s.segments, opts.unescape, text, tokens[..start]);
    assert text + "" == text;
    var before := s.(parts := s.parts + Raws(tokens[..start]));
    CoversEmitAll(before, RunChunks(tokens, opts), opts.unescape, text);
    ChunksKeep(CoreOf(tokens, opts.tags.void), opts.tags.void, opts.maxChars, opts.unescape);
    var chunked := EmitAll(before, RunChunks(tokens, opts), opts.unescape);
    CoversRaws(chunked.parts, chunked.segments, opts.unescape, text + TextOnly(tokens), tokens[end..]);
    assert text + TextOnly(tokens) + "" == text + TextOnly(tokens);
  }

  /** What is emitted covers all text but that of the run and the pending text. */
  ghost predicate Holds(s: State, unescape: string -> string, text: string) {
    exists emitted :: StateCovers(s, unescape, emitted) && emitted + (TextOnly(s.run) + Join(s.pending)) == text
  }

  lemma HoldsFrom(s: State, t: State, unescape: string -> string, text: string, more: string)
    requires Holds(s, unescape, text) && t.parts == s.parts && t.segments == s.segments
    requires TextOnly(t.run) + Join(t.pending) == TextOnly(s.run) + Join(s.pending) + more
    ensures Holds(t, unescape, text + more)
  {
    var emitted :| StateCovers(s, unescape, emitted) && emitted + (TextOnly(s.run) + Join(s.pending)) == text;
    assert StateCovers(t, unescape, emitted);
    Regroup(emitted, TextOnly(s.run) + Join(s.pending), more);
  }

  lemma HoldsSame(s: State, t: State, unescape: string -> string, text: string)
    requires Holds(s, unescape, text) && t.parts == s.parts && t.segments == s.segments
    requires TextOnly(t.run) + Join(t.pending) == TextOnly(s.run) + Join(s.pending)
    ensures Holds(t, unescape, text)
  {
    HoldsFrom(s, t, unescape, text, "");
    assert text + "" == text;
  }

  lemma HoldsMaterialized(s: State, unescape: string -> string, text: string)
    requires Holds(s, unescape, text)
    ensures Holds(Materialize(s), unescape, text)
  {
    if s.pending != [] {
      TextOnlyConcat(s.run, [TextToken(Join(s.pending))]);
      TextOnlyOne(TextToken(Join(s.pending)));
      HoldsSame(s, Materialize(s), unescape, text);
    }
  }

  lemma HoldsAppended(s: State, token: Token, unescape: string -> string, text: string)
    requires Holds(s, unescape, text) && !token.kind.Text?
    ensures Holds(Append(s, token), unescape, text)
  {
    var m := Materialize(s);
    HoldsMaterialized(s, unescape, text);
    TextOnlyConcat(m.run, [token]);
    TextOnlyOne(token);
    HoldsSame(m, Push(m, token), unescape, text);
  }

  lemma HoldsText(s: State, raw: string, unescape: string -> string, text: string)
    requires Holds(s, unescape, text)
    ensures Holds(AddText(s, raw), unescape, text + if s.skip.None? then raw else "")
  {
    var t := AddText(s, raw);
    if s.skip.Some? {
      HoldsFrom(s, t, unescape, text, "");
    } else {
      TextAdded(s, raw);
      HoldsFrom(s, t, unescape, text, raw);
    }
  }

  lemma TextAdded(s: State, raw: string)
    requires s.skip.None?
    ensures var t := AddText(s, raw); TextOnly(t.run) + Join(t.pending) == TextOnly(s.run) + Join(s.pending) + raw
  {
    if s.pending != [] {
      JoinSnoc(s.pending, raw);
    } else if s.run != [] && s.run[|s.run| - 1].kind.Text? {
      var init, last := s.run[..|s.run| - 1], s.run[|s.run| - 1];
      JoinPair(last.raw, raw);
      Regroup(TextOnly(init), last.raw, raw);
      assert TextOnly(s.run) + "" == TextOnly(s.run);
    } else {
      JoinOne(raw);
    }
  }

  lemma HoldsRaw(s: State, raw: string, unescape: string -> string, text: string)
    requires Holds(s, unescape, text)
    ensures Holds(AddRaw(s, raw), unescape, text)
  {
    var emitted :| StateCovers(s, unescape, emitted) && emitted + (TextOnly(s.run) + Join(s.pending)) == text;
    CoversPart(s.parts, s.segments, unescape, emitted, Raw(raw), false);
    assert emitted + "" == emitted;
    assert StateCovers(AddRaw(s, raw), unescape, emitted);
  }

  lemma HoldsOpaque(s: State, raw: string, unescape: string -> string, text: string)
    requires Holds(s, unescape, text)
    ensures Holds(AddOpaque(s, raw), unescape, text)
  {
    if s.skip.Some? {
      HoldsSame(s, Buffer(s, raw), unescape, text);
    } else if s.run != [] || s.pending != [] {
      HoldsAppended(s, Token(Protected, raw, "", false), unescape, text);
    } else {
      HoldsRaw(s, raw, unescape, text);
    }
  }

  lemma HoldsEndRegion(s: State, unescape: string -> string, text: string)
    requires Holds(s, unescape, text) && s.skip.Some?
    ensures Holds(EndRegion(s), unescape, text)
  {
    var raw, out := Join(s.skip.value.buffer), s.(skip := None);
    HoldsSame(s, out, unescape, text);
    if s.skip.value.toRun { HoldsAppended(out, Token(Protected, raw, "", false), unescape, text); } else { HoldsRaw(out, raw, unescape, text); }
  }

  lemma HoldsFlushed(s: State, opts: Settings, text: string)
    requires Holds(s, opts.unescape, text) && KeepsBlank(opts.unescape)
    ensures StateCovers(Flush(s, opts), opts.unescape, text) && Holds(Flush(s, opts), opts.unescape, text)
  {
    var m := Materialize(s);
    HoldsMaterialized(s, opts.unescape, text);
    var emitted :| StateCovers(m, opts.unescape, emitted) && emitted + (TextOnly(m.run) + Join(m.pending)) == text;
    assert TextOnly(m.run) + Join(m.pending) == TextOnly(m.run);
    var flushed := Flush(s, opts);
    if m.run == [] {
      assert emitted + "" == emitted;
    } else {
      CoversRun(m.(run := []), m.run, opts, emitted);
    }
    RunGone(s, opts);
    assert text + ("" + "") == text;
  }

  lemma {:induction false} EmitAllLeaves(s: State, chunks: seq<seq<Token>>, unescape: string -> string)
    ensures EmitAll(s, chunks, unescape) == s.(parts := EmitAll(s, chunks, unescape).parts, segments := EmitAll(s, chunks, unescape).segments)
  {
    if chunks != [] { EmitAllLeaves(s, chunks[..|chunks| - 1], unescape); }
  }

  /** Ending a run touches nothing but the run, the pending text and what is emitted. */
  lemma RunGone(s: State, opts: Settings)
    ensures var f := Flush(s, opts); f.run == [] && f.pending == [] && f.skip == s.skip && f.stack == s.stack
  {
    var m := Materialize(s);
    if m.run != [] {
      var before := m.(run := [], parts := m.parts + Raws(m.run[..Core(m.run, opts.tags.void).0]));
      EmitAllLeaves(before, RunChunks(m.run, opts), opts.unescape);
    }
  }

  lemma HoldsBlock(s: State, tag: string, raw: string, lang: Option<string>, void: bool, opts: Settings, text: string)
    requires Holds(s, opts.unescape, text) && KeepsBlank(opts.unescape)
    ensures Holds(StartBlock(s, tag, raw, lang, void, opts), opts.unescape, text)
  {
    HoldsFlushed(s, opts, text);
    HoldsRaw(Flush(s, opts), raw, opts.unescape, text);
    HoldsSame(AddRaw(Flush(s, opts), raw), StartBlock(s, tag, raw, lang, void, opts), opts.unescape, text);
  }

  lemma HoldsRegion(s: State, tag: string, raw: string, opts: Settings, text: string)
    requires Holds(s, opts.unescape, text) && KeepsBlank(opts.unescape)
    ensures Holds(OpenRegion(s, tag, raw, opts), opts.unescape, text)
  {
    HoldsFlushed(s, opts, text);
    var f := if InlineTag(tag, opts.tags) then s else Flush(s, opts);
    HoldsMaterialized(f, opts.unescape, text);
    HoldsSame(Materialize(f), OpenRegion(s, tag, raw, opts), opts.unescape, text);
  }

  lemma HoldsStart(s: State, event: TagEvent, raw: string, void: bool, opts: Settings, text: string)
    requires Holds(s, opts.unescape, text) && KeepsBlank(opts.unescape)
    ensures Holds(Start(s, event, raw, void, opts), opts.unescape, text)
  {
    if InsideRegion(s.skip, event, opts.tags) {
      HoldsSame(s, s.(skip := Some(StartInside(s.skip.value, event.tag, raw, void))), opts.unescape, text);
    } else {
      if s.skip.Some? { HoldsEndRegion(s, opts.unescape, text); }
      var t := CountRoot(OutOfRegion(s), event.lang);
      HoldsSame(OutOfRegion(s), t, opts.unescape, text);
      match RoleOf(event, void, opts.tags)
      case Region => HoldsRegion(t, event.tag, raw, opts, text);
      case Opaque => HoldsOpaque(t, raw, opts.unescape, text);
      case Inline => HoldsAppended(t, Token(Tag, raw, event.tag, false), opts.unescape, text);
      case Block => HoldsBlock(t, event.tag, raw, event.lang, void, opts, text);
    }
  }

  lemma HoldsEndOutside(s: State, tag: string, raw: string, opts: Settings, text: string)
    requires Holds(s, opts.unescape, text) && KeepsBlank(opts.unescape)
    ensures Holds(EndOutside(s, tag, raw, opts), opts.unescape, text)
  {
    if tag in opts.tags.inline {
      HoldsAppended(s, Token(Tag, raw, tag, true), opts.unescape, text);
    } else {
      HoldsFlushed(s, opts, text);
      var t := AddRaw(Flush(s, opts), raw);
      HoldsRaw(Flush(s, opts), raw, opts.unescape, text);
      HoldsSame(t, EndOutside(s, tag, raw, opts), opts.unescape, text);
    }
  }

  lemma HoldsEnd(s: State, tag: string, raw: string, opts: Settings, text: string)
    requires Holds(s, opts.unescape, text) && KeepsBlank(opts.unescape)
    ensures Holds(End(s, tag, raw, opts), opts.unescape, text)
  {
    if s.skip.None? {
      HoldsEndOutside(s, tag, raw, opts, text);
    } else {
      match EndInside(s.skip.value, tag, raw)
      case Stays(skip) => HoldsSame(s, s.(skip := Some(skip)), opts.unescape, text);
      case Completes(skip) =>
        HoldsSame(s, s.(skip := Some(skip)), opts.unescape, text);
        HoldsEndRegion(s.(skip := Some(skip)), opts.unescape, text);
      case BreaksOff =>
        HoldsEndRegion(s, opts.unescape, text);
        HoldsEndOutside(EndRegion(s), tag, raw, opts, text);
    }
  }

  lemma HoldsHandled(s: State, event: Event, opts: Settings, text: string)
    requires Holds(s, opts.unescape, text) && KeepsBlank(opts.unescape)
    ensures Holds(Handle(s, event, opts), opts.unescape, text + if IsText(event) && s.skip.None? then RawText(event) else "")
  {
    var raw := RawText(event);
    assert text + "" == text;
    match event
    case StartTag(start) => HoldsStart(s, start, raw, start.tag in opts.tags.void, opts, text);
    case StartEndTag(start) => HoldsStart(s, start, raw, true, opts, text);
    case EndTag(tag) => HoldsEnd(s, tag, raw, opts, text);
    case Data(_) => HoldsText(s, raw, opts.unescape, text);
    case EntityRef(_) => HoldsText(s, raw, opts.unescape, text);
    case CharRef(_) => HoldsText(s, raw, opts.unescape, text);
    case Comment(_) => HoldsOpaque(s, raw, opts.unescape, text);
    case Declaration(_) => HoldsOpaque(s, raw, opts.unescape, text);
    case MarkedSection(_) => HoldsOpaque(s, raw, opts.unescape, text);
    case Instruction(_) => HoldsOpaque(s, raw, opts.unescape, text);
  }

  lemma {:induction false} HoldsProcessed(events: seq<Event>, opts: Settings)
    requires KeepsBlank(opts.unescape)
    ensures Holds(Process(events, opts), opts.unescape, OpenText(events, opts.tags))
  {
    if events == [] {
      assert Marked([], [], [], opts.unescape, "");
      assert StateCovers(BEGIN, opts.unescape, "");
      assert "" + (TextOnly([]) + Join([])) == "";
    } else {
      HoldsProcessed(events[..|events| - 1], opts);
      ProtectedExactlyThere(events[..|events| - 1], opts);
      HoldsHandled(Process(events[..|events| - 1], opts), events[|events| - 1], opts, OpenText(events[..|events| - 1], opts.tags));
    }
  }

  /** Outside protected regions the text of a document is that of its segments, in order, together with
      raw parts that show nothing: no visible text goes untranslated. */
  lemma NoVisibleTextLeftOut(events: seq<Event>, opts: Settings)
    requires KeepsBlank(opts.unescape)
    ensures var document := DocumentOf(events, opts);
            Covers(document.parts, document.segments, opts.unescape, OpenText(events, opts.tags))
  {
    var s, text := Process(events, opts), OpenText(events, opts.tags);
    HoldsProcessed(events, opts);
    if s.skip.Some? {
      HoldsSame(s, s.(unterminated := true), opts.unescape, text);
      HoldsEndRegion(s.(unterminated := true), opts.unescape, text);
      HoldsFlushed(EndRegion(s.(unterminated := true)), opts, text);
    } else {
      HoldsFlushed(s, opts, text);
    }
  }

  // ---------------------------------------------------------------- the limit

  /** White space at either end does not make the unescaped text shorter. */
  ghost predicate SpaceCounts(unescape: string -> string) {
    && (forall space, s {:trigger unescape(space + s)} :: Blank(space) ==> |unescape(s)| <= |unescape(space + s)|)
    && (forall space, s {:trigger unescape(s + space)} :: Blank(space) ==> |unescape(s)| <= |unescape(s + space)|)
  }

  lemma PlainLengthOne(token: Token, unescape: string -> string)
    ensures PlainLength([token], unescape) == if token.kind.Text? then |unescape(token.raw)| else 0
  {
    assert [token][..0] == [];
  }

  lemma {:induction false} NonEmptyIsNoLonger(tokens: seq<Token>, unescape: string -> string)
    ensures PlainLength(NonEmpty(tokens), unescape) <= PlainLength(tokens, unescape)
  {
    if tokens != [] {
      var init, last := tokens[..|tokens| - 1], tokens[|tokens| - 1];
      NonEmptyIsNoLonger(init, unescape);
      PlainLengthConcat(NonEmpty(init), [last], unescape);
      PlainLengthOne(last, unescape);
    }
  }

  lemma HeadIsNoLonger(tokens: seq<Token>, unescape: string -> string)
    requires tokens != [] && SpaceCounts(unescape)
    ensures PlainLength(TrimHead(tokens).1, unescape) <= PlainLength(tokens, unescape)
  {
    if tokens[0].kind.Text? {
      var head, rest := tokens[0].raw, tokens[1..];
      var n := LeadingSpace(head);
      assert head == head[..n] + head[n..] && tokens == [tokens[0]] + rest;
      PlainLengthConcat([tokens[0]], rest, unescape);
      PlainLengthConcat([TextToken(head[n..])], rest, unescape);
      PlainLengthOne(tokens[0], unescape);
      PlainLengthOne(TextToken(head[n..]), unescape);
    }
  }

  lemma TailIsNoLonger(tokens: seq<Token>, unescape: string -> string)
    requires tokens != [] && SpaceCounts(unescape)
    ensures PlainLength(TrimTail(tokens).0, unescape) <= PlainLength(tokens, unescape)
  {
    var last, front := tokens[|tokens| - 1], tokens[..|tokens| - 1];
    if last.kind.Text? {
      var n := TrimmedLength(last.raw);
      assert last.raw == last.raw[..n] + last.raw[n..] && tokens == front + [last];
      PlainLengthConcat(front, [last], unescape);
      PlainLengthConcat(front, [TextToken(last.raw[..n])], unescape);
      PlainLengthOne(last, unescape);
      PlainLengthOne(TextToken(last.raw[..n]), unescape);
    }
  }

  lemma TrimmedIsNoLonger(chunk: seq<Token>, unescape: string -> string)
    requires NonEmpty(chunk) != [] && SpaceCounts(unescape)
    ensures PlainLength(Trim(NonEmpty(chunk)).body, unescape) <= PlainLength(chunk, unescape)
  {
    var kept := NonEmpty(chunk);
    var rest := TrimHead(kept).1;
    NonEmptyIsNoLonger(chunk, unescape);
    HeadIsNoLonger(kept, unescape);
    TailIsNoLonger(rest, unescape);
    NonEmptyIsNoLonger(TrimTail(rest).0, unescape);
  }

  /** The run that ends when a block tag, or the end of the document, comes next. */
  function EndedRun(s: State): Run { Collected(Materialize(OutOfRegion(s))) }

  /** What has been collected, with the block and language it belongs to. */
  datatype Run = Run(tokens: seq<Token>, context: Segmenter.Block)

  function Collected(s: State): Run { Run(s.run, s.context) }

  predicate TrimsTo(chunk: seq<Token>, body: seq<Token>) {
    NonEmpty(chunk) != [] && Trim(NonEmpty(chunk)).body == body
  }

  /** The segment is the chunk at `i` without its outer white space, under the given block and language. */
  ghost predicate FromChunk(segment: Segment, chunks: seq<seq<Token>>, context: Segmenter.Block, i: nat) {
    i < |chunks| && TrimsTo(chunks[i], segment.tokens) && (segment.block, segment.lang) == context
  }

  ghost predicate FromChunks(segment: Segment, chunks: seq<seq<Token>>, context: Segmenter.Block) {
    exists i: nat :: FromChunk(segment, chunks, context, i)
  }

  /** The later segments are the earlier ones with chunks. */
  ghost predicate GrewFrom(earlier: seq<Segment>, later: seq<Segment>, chunks: seq<seq<Token>>, context: Segmenter.Block) {
    earlier <= later && forall j :: |earlier| <= j < |later| ==> FromChunks(later[j], chunks, context)
  }

  ghost predicate IsChunk(segment: Segment, run: Run, opts: Settings, i: nat) {
    run.tokens != [] && FromChunk(segment, RunChunks(run.tokens, opts), run.context, i)
  }

  ghost predicate CutFrom(segment: Segment, run: Run, opts: Settings) {
    exists i: nat :: IsChunk(segment, run, opts, i)
  }

  /** The later segments are the earlier ones with chunks of the run. */
  ghost predicate GrewBy(earlier: seq<Segment>, later: seq<Segment>, run: Run, opts: Settings) {
    earlier <= later && forall j :: |earlier| <= j < |later| ==> CutFrom(later[j], run, opts)
  }

  predicate AddsOne(later: seq<Segment>, after: seq<Segment>, chunk: seq<Token>, context: Segmenter.Block) {
    && |after| == |later| + 1 && later <= after
    && TrimsTo(chunk, after[|later|].tokens) && (after[|later|].block, after[|later|].lang) == context
  }

  lemma EmitAddsOne(s: State, chunk: seq<Token>, unescape: string -> string)
    ensures var after := Emit(s, chunk, unescape).segments; after == s.segments || AddsOne(s.segments, after, chunk, s.context)
    ensures Emit(s, chunk, unescape).context == s.context
  {
  }

  lemma ChunkTurned(earlier: seq<Segment>, later: seq<Segment>, after: seq<Segment>, chunks: seq<seq<Token>>, context: Segmenter.Block, i: nat)
    requires i < |chunks| && GrewFrom(earlier, later, chunks, context) && AddsOne(later, after, chunks[i], context)
    ensures GrewFrom(earlier, after, chunks, context)
  {
    assert FromChunk(after[|later|], chunks, context, i);
    OneMore(earlier, later, after, segment => FromChunks(segment, chunks, context));
  }

  lemma ChunkEmitted(earlier: seq<Segment>, s: State, chunks: seq<seq<Token>>, unescape: string -> string, i: nat)
    requires i < |chunks| && GrewFrom(earlier, s.segments, chunks, s.context)
    ensures GrewFrom(earlier, Emit(s, chunks[i], unescape).segments, chunks, s.context)
  {
    var after := Emit(s, chunks[i], unescape).segments;
    EmitAddsOne(s, chunks[i], unescape);
    if after != s.segments { ChunkTurned(earlier, s.segments, after, chunks, s.context, i); }
  }

  lemma OneMore(earlier: seq<Segment>, later: seq<Segment>, after: seq<Segment>, cut: Segment -> bool)
    requires earlier <= later <= after && |after| == |later| + 1
    requires (forall j :: |earlier| <= j < |later| ==> cut(later[j])) && cut(after[|later|])
    ensures forall j :: |earlier| <= j < |after| ==> cut(after[j])
  {
    assert forall j :: 0 <= j < |later| ==> after[j] == later[j];
  }

  lemma {:induction false} EmittedChunks(s: State, chunks: seq<seq<Token>>, unescape: string -> string, n: nat)
    requires n <= |chunks|
    ensures var t := EmitAll(s, chunks[..n], unescape);
            GrewFrom(s.segments, t.segments, chunks, s.context) && t.context == s.context
    decreases n
  {
    if n > 0 {
      EmittedChunks(s, chunks, unescape, n - 1);
      assert chunks[..n][..n - 1] == chunks[..n - 1];
      ChunkEmitted(s.segments, EmitAll(s, chunks[..n - 1], unescape), chunks, unescape, n - 1);
      EmitAddsOne(EmitAll(s, chunks[..n - 1], unescape), chunks[n - 1], unescape);
    }
  }

  lemma GrewByChunks(earlier: seq<Segment>, later: seq<Segment>, run: Run, opts: Settings)
    requires run.tokens != [] && GrewFrom(earlier, later, RunChunks(run.tokens, opts), run.context)
    ensures GrewBy(earlier, later, run, opts)
  {
    forall j | |earlier| <= j < |later| ensures CutFrom(later[j], run, opts) {
      var i: nat :| FromChunk(later[j], RunChunks(run.tokens, opts), run.context, i);
      assert IsChunk(later[j], run, opts, i);
    }
  }

  lemma FlushedSegments(s: State, opts: Settings)
    ensures GrewBy(s.segments, Flush(s, opts).segments, Collected(Materialize(s)), opts)
  {
    var m := Materialize(s);
    if m.run != [] {
      var before := m.(run := [], parts := m.parts + Raws(m.run[..Core(m.run, opts.tags.void).0]));
      var chunks := RunChunks(m.run, opts);
      EmittedChunks(before, chunks, opts.unescape, |chunks|);
      assert chunks[..|chunks|] == chunks;
      GrewByChunks(s.segments, Flush(s, opts).segments, Collected(m), opts);
    }
  }

  predicate SameOrFlushed(s: State, t: State, opts: Settings) {
    t.segments == s.segments || t.segments == Flush(s, opts).segments
  }

  lemma StartedOutside(s: State, event: TagEvent, raw: string, void: bool, opts: Settings)
    ensures SameOrFlushed(s, StartOutside(s, event, raw, void, opts), opts)
  {
    match RoleOf(event, void, opts.tags)
    case Region => RegionStarted(s, event.tag, raw, opts);
    case Opaque =>
    case Inline =>
    case Block => assert StartBlock(s, event.tag, raw, event.lang, void, opts).segments == Flush(s, opts).segments;
  }

  lemma RegionStarted(s: State, tag: string, raw: string, opts: Settings)
    ensures SameOrFlushed(s, OpenRegion(s, tag, raw, opts), opts)
  {
    var f := if InlineTag(tag, opts.tags) then s else Flush(s, opts);
    assert Materialize(f).segments == f.segments;
  }

  lemma EndedOutside(s: State, tag: string, raw: string, opts: Settings)
    ensures SameOrFlushed(s, EndOutside(s, tag, raw, opts), opts)
  {
  }

  lemma Grown(s: State, out: State, t: State, opts: Settings)
    requires out.segments == s.segments && Collected(Materialize(out)) == EndedRun(s) && SameOrFlushed(out, t, opts)
    ensures GrewBy(s.segments, t.segments, EndedRun(s), opts)
  {
    FlushedSegments(out, opts);
  }

  lemma StartedSegments(s: State, event: TagEvent, raw: string, void: bool, opts: Settings)
    ensures GrewBy(s.segments, Start(s, event, raw, void, opts).segments, EndedRun(s), opts)
  {
    if !InsideRegion(s.skip, event, opts.tags) {
      var out := CountRoot(OutOfRegion(s), event.lang);
      StartedOutside(out, event, raw, void, opts);
      Grown(s, out, Start(s, event, raw, void, opts), opts);
    }
  }

  lemma EndedSegments(s: State, tag: string, raw: string, opts: Settings)
    ensures GrewBy(s.segments, End(s, tag, raw, opts).segments, EndedRun(s), opts)
  {
    if s.skip.None? || EndInside(s.skip.value, tag, raw).BreaksOff? {
      var out := OutOfRegion(s);
      EndedOutside(out, tag, raw, opts);
      Grown(s, out, EndOutside(out, tag, raw, opts), opts);
    }
  }

  /** What an event adds to the segments is cut from the run that it ends. */
  lemma HandledSegments(s: State, event: Event, opts: Settings)
    ensures GrewBy(s.segments, Handle(s, event, opts).segments, EndedRun(s), opts)
  {
    match event
    case StartTag(start) => StartedSegments(s, start, RawText(event), start.tag in opts.tags.void, opts);
    case StartEndTag(start) => StartedSegments(s, start, RawText(event), true, opts);
    case EndTag(tag) => EndedSegments(s, tag, RawText(event), opts);
    case Data(_) =>
    case EntityRef(_) =>
    case CharRef(_) =>
    case Comment(_) =>
    case Declaration(_) =>
    case MarkedSection(_) =>
    case Instruction(_) =>
  }

  ghost predicate CutBy(segment: Segment, events: seq<Event>, opts: Settings, k: nat) {
    k <= |events| && CutFrom(segment, EndedRun(Process(events[..k], opts)), opts)
  }

  lemma CutEarlier(segment: Segment, prefix: seq<Event>, events: seq<Event>, opts: Settings, k: nat)
    requires prefix <= events && CutBy(segment, prefix, opts, k)
    ensures CutBy(segment, events, opts, k)
  {
    assert prefix[..k] == events[..k];
  }

  lemma FromTheRun(earlier: seq<Segment>, later: seq<Segment>, run: Run, opts: Settings, segment: Segment)
    requires GrewBy(earlier, later, run, opts) && segment in later && segment !in earlier
    ensures CutFrom(segment, run, opts)
  {
    var j :| 0 <= j < |later| && later[j] == segment;
    assert forall m :: 0 <= m < |earlier| ==> later[m] == earlier[m] && earlier[m] in earlier;
  }

  lemma LastEvent(events: seq<Event>, opts: Settings)
    requires events != []
    ensures var s := Process(events[..|events| - 1], opts); GrewBy(s.segments, Process(events, opts).segments, EndedRun(s), opts)
  {
    HandledSegments(Process(events[..|events| - 1], opts), events[|events| - 1], opts);
  }

  lemma FromLastEvent(events: seq<Event>, opts: Settings, segment: Segment)
    requires events != [] && segment in Process(events, opts).segments
    requires segment !in Process(events[..|events| - 1], opts).segments
    ensures CutBy(segment, events, opts, |events| - 1)
  {
    LastEvent(events, opts);
    var s := Process(events[..|events| - 1], opts);
    FromTheRun(s.segments, Process(events, opts).segments, EndedRun(s), opts, segment);
  }

  lemma {:induction false} ProcessedSegments(events: seq<Event>, opts: Settings, segment: Segment) returns (k: nat)
    requires segment in Process(events, opts).segments
    ensures CutBy(segment, events, opts, k)
  {
    assert events != [];
    k := |events| - 1;
    if segment in Process(events[..k], opts).segments {
      k := ProcessedSegments(events[..k], opts, segment);
      CutEarlier(segment, events[..|events| - 1], events, opts, k);
    } else {
      FromLastEvent(events, opts, segment);
    }
  }

  lemma ClosedSegments(s: State, opts: Settings)
    ensures GrewBy(s.segments, Close(s, opts).segments, EndedRun(s), opts)
  {
    var out := if s.skip.Some? then EndRegion(s.(unterminated := true)) else s;
    Grown(s, out, Flush(out, opts), opts);
  }

  lemma DocumentSegments(events: seq<Event>, opts: Settings, segment: Segment) returns (k: nat)
    requires segment in DocumentOf(events, opts).segments
    ensures CutBy(segment, events, opts, k)
  {
    var s := Process(events, opts);
    if segment in s.segments {
      k := ProcessedSegments(events, opts, segment);
    } else {
      k := |events|;
      assert events[..k] == events;
      ClosedSegments(s, opts);
      FromTheRun(s.segments, Close(s, opts).segments, EndedRun(s), opts, segment);
    }
  }

  /** The segment lies between two places where its run may be cut, with none between. */
  ghost predicate Indivisible(segment: Segment, run: Run, opts: Settings, i: nat) {
    && IsChunk(segment, run, opts, i)
    && Unsplittable(CoreOf(run.tokens, opts.tags.void), StrictPairs(CoreOf(run.tokens, opts.tags.void), opts.tags.void),
                    Join(RunChunks(run.tokens, opts)[..i]), RunChunks(run.tokens, opts)[i])
  }

  ghost predicate WithinLimit(segment: Segment, events: seq<Event>, opts: Settings) {
    || Short(segment.tokens, opts.maxChars, opts.unescape)
    || exists k: nat, i: nat :: k <= |events| && Indivisible(segment, EndedRun(Process(events[..k], opts)), opts, i)
  }

  /** A segment is within the provider's limit, unless it is a piece of a run in which no sentence ends
      outside matched elements. */
  lemma LimitKept(events: seq<Event>, opts: Settings, segment: Segment)
    requires SpaceCounts(opts.unescape) && segment in DocumentOf(events, opts).segments
    ensures WithinLimit(segment, events, opts)
  {
    var k := DocumentSegments(events, opts, segment);
    var run := EndedRun(Process(events[..k], opts));
    var i: nat :| IsChunk(segment, run, opts, i);
    if Short(RunChunks(run.tokens, opts)[i], opts.maxChars, opts.unescape) {
      TrimmedIsNoLonger(RunChunks(run.tokens, opts)[i], opts.unescape);
    } else {
      OverLimitIsUnsplittable(CoreOf(run.tokens, opts.tags.void), opts.tags.void, opts.maxChars, opts.unescape, i);
      assert Indivisible(segment, run, opts, i);
    }
  }
}
