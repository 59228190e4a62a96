/** The segmenter's state machine: one method per parser event, each of which takes the step described
    and keeps the text. */
module SegmenterMachine {
  import opened Common
  import opened TagPairs
  import opened Sentences
  import opened Chunking
  import opened Segmenter
  import opened SegmenterSteps
  import opened SegmenterGuarantees
  import Steps = SegmenterSteps

  /** A finished segment: numbered by its position, with text to translate and no empty token. */
  predicate Finished(segment: Segment, position: nat) {
    && segment.index == position
    && (forall t :: t in segment.tokens ==> t.raw != "")
    && HasText(segment.tokens)
  }

  ghost predicate InOrder(parts: seq<Part>, segments: seq<Segment>) {
    && SlotsBelow(parts, |segments|) && Slots(parts) == Iota(|segments|)
    && forall i :: 0 <= i < |segments| ==> Finished(segments[i], i)
  }

  class Machine {
    const opts: Settings
    var parts: seq<Part>
    var segments: seq<Segment>
    var stack: seq<Segmenter.Block>
    var open: multiset<string>
    var run: seq<Token>
    var runContext: Segmenter.Block
    var skip: Option<Skip>
    var rootLang: Option<string>
    var topLevel: nat
    var unterminated: bool
    var pendingText: seq<string>

    constructor (opts: Settings)
      requires KeepsBlank(opts.unescape)
      ensures Valid() && Now() == BEGIN && Consumed() == "" && this.opts == opts
    {
      this.opts := opts;
      parts, segments, stack, open, run := [], [], [], multiset{}, [];
      runContext, skip, rootLang, topLevel := ("", None), None, None, 0;
      unterminated, pendingText := false, [];
    }

    ghost function Now(): State
      reads this
    {
      State(parts, segments, stack, run, runContext, skip, rootLang, topLevel, unterminated, pendingText)
    }

    /** The pieces emitted so far account for their segments in order, the counters agree with the
        stack, and a copied region is the only place where text is collected. */
    ghost predicate Valid()
      reads this
    {
      && Emitted()
      && open == multiset(Names(stack))
      && KeepsBlank(opts.unescape)
      && (skip.Some? ==>
           && pendingText == [] && skip.value.depth >= 1 && skip.value.inner[skip.value.name] == 0
           && (!skip.value.toRun ==> run == []))
    }

    /** Each segment's slot occurs exactly once, in increasing order. */
    ghost predicate Emitted()
      reads this`parts, this`segments
    {
      InOrder(parts, segments)
    }

    /** The emitted parts with every slot filled by its own segment. */
    ghost function Filled(): string
      requires SlotsBelow(parts, |segments|)
      reads this`parts, this`segments
    {
      Fill(parts, Htmls(segments))
    }

    /** The text collected but not yet emitted. */
    ghost function Held(): string
      reads this`run, this`pendingText, this`skip
    {
      Html(run) + Join(pendingText) + if skip.Some? then Join(skip.value.buffer) else ""
    }

    /** All source text taken in so far, in order. */
    ghost function Consumed(): string
      requires SlotsBelow(parts, |segments|)
      reads this`parts, this`segments, this`run, this`pendingText, this`skip
    {
      Filled() + Held()
    }

    /** Adds a token to the run; the first one fixes the block and language the run belongs to. */
    method PushToken(token: Token)
      requires Valid() && (skip.Some? ==> skip.value.toRun)
      modifies this`run, this`runContext
      ensures Valid() && run == old(run) + [token] && Html(run) == old(Html(run)) + token.raw
      ensures Now() == Steps.Push(old(Now()), token)
    {
      if run == [] {
        runContext := if stack == [] then ("", None) else stack[|stack| - 1];
      }
      var grown := run + [token];
      HtmlSnoc(run, token);
      run := grown;
    }

    /** Joins the collected text into one token. */
    method MaterializeText()
      requires Valid()
      modifies this`run, this`runContext, this`pendingText
      ensures Valid() && pendingText == [] && Html(run) == old(Html(run) + Join(pendingText))
      ensures Now() == Steps.Materialize(old(Now()))
    {
      if pendingText != [] {
        var raw := Join(pendingText);
        pendingText := [];
        PushToken(TextToken(raw));
      }
    }

    method AppendToken(token: Token)
      requires Valid() && (skip.Some? ==> skip.value.toRun) && !token.kind.Text?
      modifies this`run, this`runContext, this`pendingText
      ensures Valid() && pendingText == []
      ensures Html(run) == old(Html(run) + Join(pendingText)) + token.raw
      ensures Now() == Steps.Append(old(Now()), token)
    {
      MaterializeText();
      PushToken(token);
    }

    method Text(raw: string)
      requires Valid()
      modifies this`run, this`pendingText, this`skip
      ensures Valid() && Consumed() == old(Consumed()) + raw
      ensures Now() == Steps.AddText(old(Now()), raw)
    {
      if skip.Some? {
        CollectInRegion(raw);
      } else if pendingText != [] {
        JoinSnoc(pendingText, raw);
        HeldGrows(Filled(), Html(run), Join(pendingText), raw);
        pendingText := pendingText + [raw];
      } else if run != [] && run[|run| - 1].kind.Text? {
        var last := run[|run| - 1].raw;
        JoinPair(last, raw);
        PoppedText(Filled(), Html(run[..|run| - 1]), last, raw);
        run, pendingText := run[..|run| - 1], [last, raw];
      } else {
        JoinOne(raw);
        HeldGrows(Filled(), Html(run), "", raw);
        pendingText := [raw];
      }
    }

    method CollectInRegion(raw: string)
      requires Valid() && skip.Some?
      modifies this`skip
      ensures Valid() && Consumed() == old(Consumed()) + raw
      ensures Now() == Steps.Buffer(old(Now()), raw)
    {
      JoinSnoc(skip.value.buffer, raw);
      BufferGrows(Filled(), Html(run) + Join(pendingText), Join(skip.value.buffer), raw);
      skip := Some(skip.value.(buffer := skip.value.buffer + [raw]));
    }

    method OpaqueText(raw: string)
      requires Valid()
      modifies this`run, this`runContext, this`pendingText, this`skip, this`parts
      ensures Valid() && Consumed() == old(Consumed()) + raw
      ensures Now() == Steps.AddOpaque(old(Now()), raw)
    {
      if skip.Some? {
        CollectInRegion(raw);
      } else if run != [] || pendingText != [] {
        HeldGrows(Filled(), Html(run), Join(pendingText), raw);
        AppendToken(Token(Protected, raw, "", false));
        assert Held() == Html(run);
      } else {
        EmitRaw(raw);
      }
    }

    /** With nothing held back, source text goes straight to the parts. */
    method EmitRaw(raw: string)
      requires Valid() && run == [] && pendingText == [] && skip.None?
      modifies this`parts
      ensures Valid() && Consumed() == old(Consumed()) + raw && Now() == Steps.AddRaw(old(Now()), raw)
    {
      FillSnoc(parts, Raw(raw), Htmls(segments));
      NothingHeld(Filled(), raw);
      parts := parts + [Raw(raw)];
      assert Held() == "";
    }

    method EndSkip()
      requires Valid() && skip.Some?
      modifies this`run, this`runContext, this`pendingText, this`skip, this`parts
      ensures Valid() && Consumed() == old(Consumed()) && Now() == Steps.EndRegion(old(Now()))
    {
      var region := skip.value;
      var raw := Join(region.buffer);
      skip := None;
      if region.toRun {
        AppendToken(Token(Protected, raw, "", false));
        assert Held() == Html(run);
        assert Held() == old(Held());
      } else {
        assert old(Held()) == raw;
        EmitRaw(raw);
      }
    }

    /** One chunk becomes a segment, or plain parts when it has nothing to translate. */
    method Emit(tokens: seq<Token>)
      requires Emitted() && KeepsBlank(opts.unescape)
      modifies this`parts, this`segments
      ensures Emitted() && Filled() == old(Filled()) + Html(tokens)
      ensures Now() == Steps.Emit(old(Now()), tokens, opts.unescape)
    {
      var kept := NonEmpty(tokens);
      if !exists t :: t in kept && t.kind.Text? && !Blank(opts.unescape(t.raw)) {
        FillRaws(parts, kept, Htmls(segments));
        parts := parts + Raws(kept);
        return;
      }
      var t :| t in kept && t.kind.Text? && !Blank(opts.unescape(t.raw));
      EmitSegment(kept);
    }

    method EmitSegment(kept: seq<Token>)
      requires Emitted() && HasText(kept)
      modifies this`parts, this`segments
      ensures Emitted() && Filled() == old(Filled()) + Html(kept)
      ensures Now() == Steps.EmitTrimmed(old(Now()), Trim(kept), kept[0].kind.Text?)
    {
      EmitTrimmed(Trim(kept), kept[0].kind.Text?);
    }

    method EmitTrimmed(trimmed: Trimmed, startsWithText: bool)
      requires Emitted() && HasText(trimmed.body) && forall t :: t in trimmed.body ==> t.raw != ""
      requires !startsWithText ==> trimmed.lead == ""
      modifies this`parts, this`segments
      ensures Emitted() && Filled() == old(Filled()) + (trimmed.lead + Html(trimmed.body) + trimmed.tail)
      ensures Now() == Steps.EmitTrimmed(old(Now()), trimmed, startsWithText)
    {
      var segment := Segment(|segments|, runContext.0, runContext.1, trimmed.body);
      SegmentEmitted(parts, segments, trimmed, startsWithText, segment);
      parts, segments := parts + Surrounded(trimmed, startsWithText, |segments|), segments + [segment];
    }

    /** Ends the run: unmatched tags at its edges stay outside, the rest is emitted in chunks. */
    method Flush()
      requires Valid() && skip.None?
      modifies this`run, this`runContext, this`pendingText, this`parts, this`segments
      ensures Valid() && run == [] && pendingText == [] && Consumed() == old(Consumed())
      ensures Now() == Steps.Flush(old(Now()), opts)
    {
      var tokens := TakeRun();
      if tokens != [] {
        FlushTokens(tokens);
      }
    }

    /** Collecting ends: what was held is handed over as the tokens of a run. */
    method TakeRun() returns (tokens: seq<Token>)
      requires Valid() && skip.None?
      modifies this`run, this`runContext, this`pendingText
      ensures Valid() && tokens == Steps.Materialize(old(Now())).run
      ensures Now() == Steps.Materialize(old(Now())).(run := []) && pendingText == []
      ensures Held() == "" && Filled() + Html(tokens) == old(Consumed())
    {
      MaterializeText();
      assert Held() == old(Held());
      HeldFlushed(Filled(), Html(run), Consumed());
      tokens := run;
      run := [];
    }

    method FlushTokens(tokens: seq<Token>)
      requires Emitted() && KeepsBlank(opts.unescape)
      modifies this`parts, this`segments
      ensures Emitted() && Filled() == old(Filled()) + Html(tokens)
      ensures Now() == EmitRun(old(Now()), tokens, opts)
    {
      var start, end := FindCore(tokens);
      EmitRaws(tokens[..start]);
      var chunks := Chunks(tokens[start..end], opts.tags.void, opts.maxChars, opts.unescape);
      EmitChunks(chunks);
      EmitRaws(tokens[end..]);
      FlushedRun(old(Filled()), tokens, start, end);
    }

    method FindCore(tokens: seq<Token>) returns (start: nat, end: nat)
      ensures (start, end) == Core(tokens, opts.tags.void)
    {
      var pairs := MatchedTagPairs(tokens, opts.tags.void);
      start, end := 0, |tokens|;
      while start < end && tokens[start].kind.Tag? && !MatchedAt(pairs, start)
        invariant start <= end && CoreStart(tokens, pairs, start) == CoreStart(tokens, pairs, 0)
      {
        start := start + 1;
      }
      while end > start && tokens[end - 1].kind.Tag? && !MatchedAt(pairs, end - 1)
        invariant start <= end <= |tokens| && CoreEnd(tokens, pairs, start, end) == CoreEnd(tokens, pairs, start, |tokens|)
      {
        end := end - 1;
      }
    }

    method EmitRaws(tokens: seq<Token>)
      requires Emitted()
      modifies this`parts
      ensures Emitted() && Filled() == old(Filled()) + Html(tokens)
      ensures Now() == old(Now()).(parts := old(parts) + Raws(tokens))
    {
      FillRaws(parts, tokens, Htmls(segments));
      parts := parts + Raws(tokens);
    }

    method EmitChunks(chunks: seq<seq<Token>>)
      requires Emitted() && KeepsBlank(opts.unescape)
      modifies this`parts, this`segments
      ensures Emitted() && Filled() == old(Filled()) + Html(Join(chunks))
      ensures Now() == EmitAll(old(Now()), chunks, opts.unescape)
    {
      for k := 0 to |chunks|
        invariant Emitted() && Filled() == old(Filled()) + Html(Join(chunks[..k]))
        invariant Now() == EmitAll(old(Now()), chunks[..k], opts.unescape)
      {
        ChunkAdded(old(Filled()), chunks, k);
        Emit(chunks[k]);
      }
      assert chunks[..|chunks|] == chunks;
    }

    /** Drops the blocks from `position` up, and counts them off one by one. */
    method PopTo(position: nat)
      requires Valid() && position <= |stack|
      modifies this`stack, this`open
      ensures Valid() && Now() == old(Now()).(stack := old(stack[..position]))
    {
      NamesSplit(stack, position);
      var dropped := stack[position..];
      for k := 0 to |dropped|
        invariant stack == old(stack)
        invariant open == multiset(Names(stack[..position])) + multiset(Names(dropped[k..]))
      {
        assert Names(dropped[k..]) == [dropped[k].0] + Names(dropped[k + 1..]);
        open := open - multiset{dropped[k].0};
      }
      stack := stack[..position];
    }

    /** Starts a block element, or passes a void one: the run ends, an open paragraph and whatever
        the tag implicitly closes are popped. */
    method BlockStart(tag: string, raw: string, lang: Option<string>, void: bool)
      requires Valid() && skip.None?
      modifies this`run, this`runContext, this`pendingText, this`parts, this`segments, this`stack, this`open
      ensures Valid() && Consumed() == old(Consumed()) + raw
      ensures Now() == StartBlock(old(Now()), tag, raw, lang, void, opts)
    {
      Flush();
      PopParagraph();
      PopImplied(tag);
      EmitRaw(raw);
      if !void {
        PushBlock((tag, EffectiveLang(lang, stack)));
      }
    }

    method PopParagraph()
      requires Valid()
      modifies this`stack, this`open
      ensures Valid() && Now() == old(Now()).(stack := WithoutParagraph(old(stack)))
    {
      if stack != [] && stack[|stack| - 1].0 == "p" {
        PopTo(|stack| - 1);
      }
    }

    method PushBlock(block: Segmenter.Block)
      requires Valid()
      modifies this`stack, this`open
      ensures Valid() && Now() == old(Now()).(stack := old(stack) + [block])
    {
      assert Names(stack + [block]) == Names(stack) + [block.0];
      stack := stack + [block];
      open := open + multiset{block.0};
    }

    method PopImplied(tag: string)
      requires Valid()
      modifies this`stack, this`open
      ensures Valid() && Now() == old(Now()).(stack := CloseImplied(old(stack), tag, opts.tags))
    {
      if tag !in opts.tags.impliedEnd {
        return;
      }
      var implied := opts.tags.impliedEnd[tag];
      var lowest := if |stack| > IMPLIED_END_SCAN then |stack| - IMPLIED_END_SCAN else 0;
      if !exists name :: name in implied.closes && open[name] > 0 {
        NothingToClose(stack, |stack|, lowest, implied);
        assert stack[..|stack|] == stack;
        return;
      }
      var position := |stack|;
      while position > lowest
        invariant lowest <= position <= |stack|
        invariant ImpliedFloor(stack, |stack|, lowest, implied) == ImpliedFloor(stack, position, lowest, implied)
      {
        var name := stack[position - 1].0;
        if name in implied.boundary {
          break;
        }
        if name in implied.closes {
          PopTo(position - 1);
          return;
        }
        position := position - 1;
      }
      assert stack[..|stack|] == stack;
    }

    /** The end tag of a block: the innermost open block of that name is closed. */
    method PopNamed(tag: string)
      requires Valid()
      modifies this`stack, this`open
      ensures Valid() && Now() == old(Now()).(stack := CloseNamed(old(stack), tag))
    {
      if open[tag] == 0 {
        assert tag !in Names(stack);
        return;
      }
      var position := |stack|;
      while position > 0
        invariant 0 <= position <= |stack| && stack == old(stack) && open == old(open)
        invariant forall k :: position <= k < |stack| ==> stack[k].0 != tag
      {
        position := position - 1;
        if stack[position].0 == tag {
          CloseNamedAt(stack, tag, position);
          PopTo(position);
          return;
        }
      }
      assert false;
    }

    /** The inline tags of the run that are open, by the same stack discipline as the tag pairs. */
    method OpenInlineNames() returns (names: seq<string>)
      ensures names == OpenNames(run, opts.tags.void)
    {
      names := [];
      for n := 0 to |run|
        invariant names == NamesUpTo(run, opts.tags.void, n)
      {
        var token := run[n];
        NextNames(run, opts.tags.void, n);
        if token.kind != Tag || token.name in opts.tags.void {
          continue;
        }
        if !token.closing {
          names := names + [token.name];
        } else if names != [] && names[|names| - 1] == token.name {
          names := names[..|names| - 1];
        }
      }
    }

    /** All open ancestors: the block stack and the inline tags the run leaves open. */
    method OpenAncestors() returns (ancestors: multiset<string>)
      requires Valid() && skip.None?
      modifies this`run, this`runContext, this`pendingText
      ensures Valid() && Consumed() == old(Consumed()) && pendingText == []
      ensures Now() == Steps.Materialize(old(Now()))
      ensures ancestors == multiset(Names(stack)) + multiset(OpenNames(run, opts.tags.void))
    {
      MaterializeText();
      assert Held() == old(Held());
      var names := OpenInlineNames();
      ancestors := multiset(Names(stack)) + multiset(names);
    }

    /** A start tag, by its role: text inside a region, the start of one, or markup of its own. */
    method Start(event: TagEvent, raw: string, void: bool)
      requires Valid()
      modifies this`run, this`runContext, this`pendingText, this`parts, this`segments, this`skip, this`stack, this`open,
        this`topLevel, this`rootLang
      ensures Valid() && Consumed() == old(Consumed()) + raw
      ensures Now() == Steps.Start(old(Now()), event, raw, void, opts)
    {
      if skip.Some? && skip.value.toRun && event.tag !in opts.tags.inline && event.tag !in opts.tags.protectedInline {
        EndSkip();
      } else if skip.Some? {
        EnterInside(event.tag, raw, void);
        return;
      }
      CountTopLevel(event.lang);
      StartMarkup(event, raw, void);
    }

    method CountTopLevel(lang: Option<string>)
      requires Valid()
      modifies this`topLevel, this`rootLang
      ensures Valid() && Now() == CountRoot(old(Now()), lang)
    {
      if stack == [] {
        topLevel := topLevel + 1;
        rootLang := if topLevel == 1 then lang else None;
      }
    }

    method StartMarkup(event: TagEvent, raw: string, void: bool)
      requires Valid() && skip.None?
      modifies this`run, this`runContext, this`pendingText, this`parts, this`segments, this`skip, this`stack, this`open
      ensures Valid() && Consumed() == old(Consumed()) + raw
      ensures Now() == StartOutside(old(Now()), event, raw, void, opts)
    {
      var inlineTag := event.tag in opts.tags.inline || event.tag in opts.tags.protectedInline;
      if event.tag in opts.tags.skipped || event.tag in opts.tags.protectedInline || event.noTranslate {
        if void && inlineTag {
          OpaqueText(raw);
        } else if void {
          BlockStart(event.tag, raw, event.lang, true);
        } else {
          StartRegion(event.tag, raw, inlineTag);
        }
      } else if event.tag in opts.tags.inline {
        AppendTag(Token(Tag, raw, event.tag, false));
      } else {
        BlockStart(event.tag, raw, event.lang, void);
      }
    }

    method AppendTag(token: Token)
      requires Valid() && skip.None? && token.kind.Tag?
      modifies this`run, this`runContext, this`pendingText
      ensures Valid() && Consumed() == old(Consumed()) + token.raw
      ensures Now() == Steps.Append(old(Now()), token)
    {
      HeldGrows(Filled(), Html(run), Join(pendingText), token.raw);
      AppendToken(token);
      assert Held() == Html(run);
    }

    method EnterInside(tag: string, raw: string, void: bool)
      requires Valid() && skip.Some?
      modifies this`skip
      ensures Valid() && Consumed() == old(Consumed()) + raw
      ensures Now() == old(Now()).(skip := Some(StartInside(old(skip).value, tag, raw, void)))
    {
      CollectInRegion(raw);
      if tag == skip.value.name && !void {
        Recount(skip.value.depth + 1, skip.value.inner);
      } else if !void {
        Recount(skip.value.depth, skip.value.inner + multiset{tag});
      }
    }

    method StartRegion(tag: string, raw: string, inlineTag: bool)
      requires Valid() && skip.None? && (inlineTag <==> InlineTag(tag, opts.tags))
      modifies this`run, this`runContext, this`pendingText, this`parts, this`segments, this`skip
      ensures Valid() && Consumed() == old(Consumed()) + raw
      ensures Now() == OpenRegion(old(Now()), tag, raw, opts)
    {
      if !inlineTag {
        Flush();
      }
      var closers := OpenAncestors();
      JoinOne(raw);
      RegionHeld(Filled(), Html(run), raw);
      skip := Some(Skip(tag, inlineTag, [raw], 1, multiset{}, closers));
    }

    /** An end tag inside a region may stay there, complete the region, or break it off; outside it
        closes an inline tag of the run or the innermost block of its name. */
    method End(tag: string, raw: string)
      requires Valid()
      modifies this`run, this`runContext, this`pendingText, this`parts, this`segments, this`skip, this`stack, this`open
      ensures Valid() && Consumed() == old(Consumed()) + raw
      ensures Now() == Steps.End(old(Now()), tag, raw, opts)
    {
      if skip.Some? {
        var inside := EndWithin(tag, raw);
        if !inside {
          EndMarkup(tag, raw);
        }
      } else {
        EndMarkup(tag, raw);
      }
    }

    /** An end tag inside a region, which it belongs to or breaks off. */
    method EndWithin(tag: string, raw: string) returns (inside: bool)
      requires Valid() && skip.Some?
      modifies this`run, this`runContext, this`pendingText, this`parts, this`skip
      ensures Valid() && (inside ==> Consumed() == old(Consumed()) + raw) && (!inside ==> Consumed() == old(Consumed()))
      ensures match EndInside(old(skip).value, tag, raw)
        case Stays(region) => inside && Now() == old(Now()).(skip := Some(region))
        case Completes(region) => inside && Now() == Steps.EndRegion(old(Now()).(skip := Some(region)))
        case BreaksOff => !inside && Now() == Steps.EndRegion(old(Now()))
    {
      inside := true;
      if skip.value.inner[tag] > 0 {
        CollectInRegion(raw);
        Recount(skip.value.depth, skip.value.inner - multiset{tag});
      } else if tag == skip.value.name {
        CompleteRegion(raw);
      } else if skip.value.closers[tag] == 0 {
        CollectInRegion(raw);
      } else {
        EndSkip();
        inside := false;
      }
    }

    /** Other counts for the open region, whose text stays as it is. */
    method Recount(depth: nat, inner: multiset<string>)
      requires Valid() && skip.Some? && depth >= 1 && inner[skip.value.name] == 0
      modifies this`skip
      ensures Valid() && Consumed() == old(Consumed())
      ensures Now() == old(Now()).(skip := Some(old(skip).value.(depth := depth, inner := inner)))
    {
      skip := Some(skip.value.(depth := depth, inner := inner));
    }

    /** The region's own end tag: the last one ends it. */
    method CompleteRegion(raw: string)
      requires Valid() && skip.Some?
      modifies this`run, this`runContext, this`pendingText, this`parts, this`skip
      ensures Valid() && Consumed() == old(Consumed()) + raw
      ensures old(skip).value.depth == 1 ==> Now() == Steps.EndRegion(Steps.Buffer(old(Now()), raw))
      ensures old(skip).value.depth > 1 ==>
        Now() == old(Now()).(skip := Some(old(skip).value.(buffer := old(skip).value.buffer + [raw], depth := old(skip).value.depth - 1)))
    {
      CollectInRegion(raw);
      if skip.value.depth == 1 {
        EndSkip();
      } else {
        Recount(skip.value.depth - 1, skip.value.inner);
      }
    }

    method EndMarkup(tag: string, raw: string)
      requires Valid() && skip.None?
      modifies this`run, this`runContext, this`pendingText, this`parts, this`segments, this`stack, this`open
      ensures Valid() && Consumed() == old(Consumed()) + raw
      ensures Now() == EndOutside(old(Now()), tag, raw, opts)
    {
      if tag in opts.tags.inline {
        AppendTag(Token(Tag, raw, tag, true));
      } else {
        Flush();
        EmitRaw(raw);
        PopNamed(tag);
      }
    }

    method Handle(event: Event)
      requires Valid()
      modifies this
      ensures Valid() && Consumed() == old(Consumed()) + RawText(event)
      ensures Now() == Steps.Handle(old(Now()), event, opts)
    {
      var raw := RawText(event);
      match event
      case StartTag(start) => Start(start, raw, start.tag in opts.tags.void);
      case StartEndTag(start) => Start(start, raw, true);
      case EndTag(tag) => End(tag, raw);
      case Data(_) => Text(raw);
      case EntityRef(_) => Text(raw);
      case CharRef(_) => Text(raw);
      case Comment(_) => OpaqueText(raw);
      case Declaration(_) => OpaqueText(raw);
      case MarkedSection(_) => OpaqueText(raw);
      case Instruction(_) => OpaqueText(raw);
    }

    /** All events of a document. */
    method Feed(events: seq<Event>)
      requires Valid() && Now() == BEGIN && Consumed() == ""
      modifies this
      ensures Valid() && Consumed() == Source(events) && Now() == Process(events, opts)
    {
      for k := 0 to |events|
        invariant Valid() && Consumed() == Source(events[..k]) && Now() == Process(events[..k], opts)
      {
        SourceSnoc(events, k);
        Handle(events[k]);
      }
      assert events[..|events|] == events;
    }

    /** The end of the document: a region still open is cut short, and the last run ends. */
    method Close()
      requires Valid()
      modifies this
      ensures Valid() && Filled() == old(Consumed())
      ensures Now() == Steps.Close(old(Now()), opts)
    {
      if skip.Some? {
        unterminated := true;
        EndSkip();
      }
      Flush();
      assert Held() == "";
    }
  }

  lemma CloseNamedAt(stack: seq<Segmenter.Block>, tag: string, position: nat)
    requires position < |stack| && stack[position].0 == tag
    requires forall k :: position < k < |stack| ==> stack[k].0 != tag
    ensures CloseNamed(stack, tag) == stack[..position]
  {
    var rest := CloseNamed(stack, tag);
    assert Names(stack)[position] == tag;
    assert rest == stack[..|rest|];
  }

  lemma ChunkAdded(filled: string, chunks: seq<seq<Token>>, k: nat)
    requires k < |chunks|
    ensures filled + Html(Join(chunks[..k + 1])) == filled + Html(Join(chunks[..k])) + Html(chunks[k])
    ensures chunks[..k + 1][..|chunks[..k + 1]| - 1] == chunks[..k] && chunks[..k + 1][|chunks[..k + 1]| - 1] == chunks[k]
  {
    assert chunks[..k + 1] == chunks[..k] + [chunks[k]];
    JoinSnoc(chunks[..k], chunks[k]);
    HtmlConcat(Join(chunks[..k]), chunks[k]);
    Regroup(filled, Html(Join(chunks[..k])), Html(chunks[k]));
  }

  /** How the open inline tags change with one more token. */
  lemma ThreePieces(a: seq<Token>, b: seq<Token>, c: seq<Token>)
    ensures Html(a + b + c) == Html(a) + Html(b) + Html(c)
  {
    HtmlConcat(a, b);
    HtmlConcat(a + b, c);
  }

  lemma FlushedRun(filled: string, tokens: seq<Token>, start: nat, end: nat)
    requires start <= end <= |tokens|
    ensures filled + Html(tokens[..start]) + Html(tokens[start..end]) + Html(tokens[end..]) == filled + Html(tokens)
  {
    Cut3(tokens, start, end);
    ThreePieces(tokens[..start], tokens[start..end], tokens[end..]);
    FlushedText(filled, Html(tokens[..start]), Html(tokens[start..end]), Html(tokens[end..]));
  }

  lemma Cut3<T>(s: seq<T>, start: nat, end: nat)
    requires start <= end <= |s|
    ensures s[..start] + s[start..end] + s[end..] == s
  {
    assert s[..start] + s[start..end] == s[..end];
  }

  lemma FlushedText(filled: string, a: string, b: string, c: string)
    ensures filled + a + b + c == filled + (a + b + c)
  {
  }

  lemma HeldFlushed(filled: string, run: string, before: string)
    requires before == filled + (run + "" + "")
    ensures before == filled + run
  {
    assert run + "" + "" == run;
  }

  /** A segment goes into its slot, the white space around it beside it. */
  lemma SegmentEmitted(parts: seq<Part>, segments: seq<Segment>, trimmed: Trimmed, startsWithText: bool, segment: Segment)
    requires InOrder(parts, segments) && Finished(segment, |segments|) && segment.tokens == trimmed.body
    requires !startsWithText ==> trimmed.lead == ""
    ensures InOrder(parts + Surrounded(trimmed, startsWithText, |segments|), segments + [segment])
    ensures Fill(parts + Surrounded(trimmed, startsWithText, |segments|), Htmls(segments + [segment])) ==
      Fill(parts, Htmls(segments)) + (trimmed.lead + Html(trimmed.body) + trimmed.tail)
  {
    var headed := if startsWithText then parts + [Raw(trimmed.lead)] else parts;
    var tailed := if trimmed.tail != "" then headed + [Slot(|segments|), Raw(trimmed.tail)] else headed + [Slot(|segments|)];
    assert tailed == parts + Surrounded(trimmed, startsWithText, |segments|);
    FillSegment(parts, segments, headed, tailed, trimmed.lead, segment, trimmed.tail);
  }

  /** Emitting a segment with its surrounding white space adds exactly its text. */
  lemma FillSegment(parts: seq<Part>, segments: seq<Segment>, headed: seq<Part>, tailed: seq<Part>,
                    lead: string, segment: Segment, tail: string)
    requires InOrder(parts, segments) && Finished(segment, |segments|)
    requires headed == (if headed == parts then parts else parts + [Raw(lead)]) && (headed == parts ==> lead == "")
    requires tailed == if tail != "" then headed + [Slot(segment.index), Raw(tail)] else headed + [Slot(segment.index)]
    ensures InOrder(tailed, segments + [segment])
    ensures Fill(tailed, Htmls(segments + [segment])) ==
      Fill(parts, Htmls(segments)) + (lead + Html(segment.tokens) + tail)
  {
    var before, after := Htmls(segments), Htmls(segments + [segment]);
    HtmlsSnoc(segments, segment);
    FillMore(parts, before, Html(segment.tokens));
    FillHead(parts, headed, lead, after);
    FillTail(headed, tailed, segment.index, tail, after);
    FlushedText(Fill(parts, before), lead, Html(segment.tokens), tail);
    InOrderGrows(parts, segments, tailed, segment);
  }

  lemma HtmlsSnoc(segments: seq<Segment>, segment: Segment)
    ensures Htmls(segments + [segment]) == Htmls(segments) + [Html(segment.tokens)]
  {
  }

  lemma InOrderGrows(parts: seq<Part>, segments: seq<Segment>, tailed: seq<Part>, segment: Segment)
    requires InOrder(parts, segments) && Finished(segment, |segments|)
    requires SlotsBelow(tailed, |segments| + 1) && Slots(tailed) == Slots(parts) + [segment.index]
    ensures InOrder(tailed, segments + [segment])
  {
    assert Iota(|segments| + 1) == Iota(|segments|) + [segment.index];
    forall i | 0 <= i < |segments + [segment]| ensures Finished((segments + [segment])[i], i) {
      assert i < |segments| ==> (segments + [segment])[i] == segments[i];
    }
  }

  lemma FillHead(parts: seq<Part>, headed: seq<Part>, lead: string, translations: seq<string>)
    requires SlotsBelow(parts, |translations|)
    requires headed == (if headed == parts then parts else parts + [Raw(lead)]) && (headed == parts ==> lead == "")
    ensures SlotsBelow(headed, |translations|) && Slots(headed) == Slots(parts)
    ensures Fill(headed, translations) == Fill(parts, translations) + lead
  {
    if headed == parts {
      assert Fill(parts, translations) + "" == Fill(parts, translations);
    } else {
      FillSnoc(parts, Raw(lead), translations);
    }
  }

  lemma FillTail(headed: seq<Part>, tailed: seq<Part>, index: nat, tail: string, translations: seq<string>)
    requires SlotsBelow(headed, |translations|) && index < |translations|
    requires tailed == if tail != "" then headed + [Slot(index), Raw(tail)] else headed + [Slot(index)]
    ensures SlotsBelow(tailed, |translations|) && Slots(tailed) == Slots(headed) + [index]
    ensures Fill(tailed, translations) == Fill(headed, translations) + translations[index] + tail
  {
    FillSnoc(headed, Slot(index), translations);
    if tail != "" {
      FillSnoc(headed + [Slot(index)], Raw(tail), translations);
      assert tailed == headed + [Slot(index)] + [Raw(tail)];
    } else {
      assert Fill(headed, translations) + translations[index] + "" == Fill(headed, translations) + translations[index];
    }
  }

  lemma HeldGrows(filled: string, run: string, pending: string, raw: string)
    ensures filled + (run + (pending + raw) + "") == filled + (run + pending + "") + raw
    ensures filled + (run + pending + raw + "" + "") == filled + (run + pending + "") + raw
  {
    assert run + (pending + raw) + "" == run + pending + "" + raw;
  }

  lemma PoppedText(filled: string, run: string, last: string, raw: string)
    ensures filled + (run + (last + raw) + "") == filled + (run + last + "" + "") + raw
  {
    assert run + (last + raw) + "" == run + last + "" + "" + raw;
  }

  lemma BufferGrows(filled: string, run: string, buffer: string, raw: string)
    ensures filled + (run + (buffer + raw)) == filled + (run + buffer) + raw
  {
    assert run + (buffer + raw) == run + buffer + raw;
  }

  lemma RegionHeld(filled: string, run: string, raw: string)
    ensures filled + (run + "" + raw) == filled + (run + "" + "") + raw
  {
  }

  lemma NothingHeld(filled: string, raw: string)
    ensures filled + raw + "" == filled + "" + raw
  {
  }

  /** Cuts a document into parts and segments. Filling each slot with its own segment gives the
      source back, character by character, for every sequence of parser events and every limit; no
      visible text outside protected regions is left out; and a segment is over the limit only where
      its run cannot be cut. */
  method SegmentHtml(events: seq<Event>, maxChars: Option<int>, unescape: string -> string)
    returns (document: Document)
    requires KeepsBlank(unescape) && SpaceCounts(unescape)
    ensures var opts := Settings(HTML_TAGS, maxChars, unescape);
            && document == DocumentOf(events, opts)
            && Covers(document.parts, document.segments, unescape, OpenText(events, opts.tags))
            && forall segment :: segment in document.segments ==> WithinLimit(segment, events, opts)
    ensures InOrder(document.parts, document.segments)
    ensures Reassemble(document, Htmls(document.segments)) == Ok(Source(events))
  {
    ghost var opts := Settings(HTML_TAGS, maxChars, unescape);
    var machine := new Machine(Settings(HTML_TAGS, maxChars, unescape));
    machine.Feed(events);
    machine.Close();
    document := Document(machine.parts, machine.segments, machine.rootLang, machine.unterminated);
    NoVisibleTextLeftOut(events, opts);
    forall segment | segment in document.segments ensures WithinLimit(segment, events, opts) {
      LimitKept(events, opts, segment);
    }
  }

  lemma SourceSnoc(events: seq<Event>, k: nat)
    requires k < |events|
    ensures Source(events[..k + 1]) == Source(events[..k]) + RawText(events[k])
    ensures forall opts :: Process(events[..k + 1], opts) == Steps.Handle(Process(events[..k], opts), events[k], opts)
  {
    assert events[..k + 1][..k] == events[..k];
  }
}
