/** What each parser event does to the segmenter, as a function from state to state. */
module SegmenterSteps {
  import opened Common
  import opened TagPairs
  import opened Sentences
  import opened Chunking
  import opened Segmenter

  /** A start tag as the parser reports it: its source text, its `lang` attribute and whether it
      carries translate="no". */
  datatype TagEvent = TagEvent(tag: string, text: string, lang: Option<string>, noTranslate: bool)

  datatype Event =
    | StartTag(start: TagEvent)
    | StartEndTag(start: TagEvent)
    | EndTag(tag: string)
    | Data(data: string)
    | EntityRef(name: string)
    | CharRef(name: string)
    | Comment(data: string)
    | Declaration(data: string)
    | MarkedSection(data: string)
    | Instruction(data: string)

  /** The source text an event stands for. */
  function RawText(event: Event): string {
    match event
    case StartTag(start) => if start.text != "" then start.text else "<" + start.tag + ">"
    case StartEndTag(start) => if start.text != "" then start.text else "<" + start.tag + "/>"
    case EndTag(tag) => "</" + tag + ">"
    case Data(data) => data
    case EntityRef(name) => "&" + name + ";"
    case CharRef(name) => "&#" + name + ";"
    case Comment(data) => "<!--" + data + "-->"
    case Declaration(data) => "<!" + data + ">"
    case MarkedSection(data) => if "CDATA[" <= data then "<![" + data + "]]>" else "<![" + data + "]>"
    case Instruction(data) => "<?" + data + ">"
  }

  predicate IsText(event: Event) { event.Data? || event.EntityRef? || event.CharRef? }

  function Source(events: seq<Event>): string {
    if events == [] then "" else Source(events[..|events| - 1]) + RawText(events[|events| - 1])
  }

  /** An element whose inside is copied through: where it goes, how deep its own tag is nested, the
      other tags opened inside, and the ancestors whose end tag would break it off. */
  datatype Skip = Skip(name: string, toRun: bool, buffer: seq<string>, depth: nat,
                       inner: multiset<string>, closers: multiset<string>)

  /** What an end tag does to the region: stays inside it, completes it, or breaks it off. */
  datatype SkipMove = Stays(skip: Skip) | Completes(skip: Skip) | BreaksOff

  function EndInside(skip: Skip, tag: string, raw: string): SkipMove {
    var more := skip.(buffer := skip.buffer + [raw]);
    if skip.inner[tag] > 0 then Stays(more.(inner := skip.inner - multiset{tag}))
    else if tag == skip.name then
      if skip.depth <= 1 then Completes(more) else Stays(more.(depth := skip.depth - 1))
    else if skip.closers[tag] == 0 then Stays(more)
    else BreaksOff
  }

  function StartInside(skip: Skip, tag: string, raw: string, void: bool): Skip {
    var more := skip.(buffer := skip.buffer + [raw]);
    if void then more
    else if tag == skip.name then more.(depth := skip.depth + 1)
    else more.(inner := skip.inner + multiset{tag})
  }

  /** A start tag is text of a running region, unless it is a block tag inside an inline region. */
  predicate InsideRegion(skip: Option<Skip>, event: TagEvent, tags: Vocabulary) {
    skip.Some? && !(skip.value.toRun && event.tag !in tags.inline && event.tag !in tags.protectedInline)
  }

  /** What a start tag outside every region is: the start of a region, or markup. */
  datatype Role = Region | Opaque | Inline | Block

  predicate InlineTag(tag: string, tags: Vocabulary) { tag in tags.inline || tag in tags.protectedInline }

  function RoleOf(event: TagEvent, void: bool, tags: Vocabulary): Role {
    if event.tag in tags.skipped || event.tag in tags.protectedInline || event.noTranslate then
      if !void then Region else if InlineTag(event.tag, tags) then Opaque else Block
    else if event.tag in tags.inline then Inline
    else Block
  }

  /** The names of the run's tags at the given positions. */
  function NamesAt(tokens: seq<Token>, indices: seq<nat>): seq<string>
    requires forall k :: 0 <= k < |indices| ==> indices[k] < |tokens|
  {
    seq(|indices|, k requires 0 <= k < |indices| => tokens[indices[k]].name)
  }

  /** The inline tags that the strict matching of the first `n` tokens leaves open. */
  function NamesUpTo(run: seq<Token>, void: set<string>, n: nat): seq<string>
    requires n <= |run|
  {
    NamesAt(run, MatchTo(run, void, n).1)
  }

  /** The inline tags that the strict matching of a run leaves open. */
  function OpenNames(run: seq<Token>, void: set<string>): seq<string> { NamesUpTo(run, void, |run|) }

  /** What one more token does to the names of the open inline tags. */
  function NamePushed(names: seq<string>, token: Token, void: set<string>): seq<string> {
    if Opens(token, void) then names + [token.name]
    else if Closes(token, void) && names != [] && names[|names| - 1] == token.name then names[..|names| - 1]
    else names
  }

  lemma NextNames(run: seq<Token>, void: set<string>, n: nat)
    requires n < |run|
    ensures NamesUpTo(run, void, n + 1) == NamePushed(NamesUpTo(run, void, n), run[n], void)
  {
    var open := MatchTo(run, void, n).1;
    assert NamesAt(run, open + [n]) == NamesAt(run, open) + [run[n].name];
    if open != [] { assert NamesAt(run, open[..|open| - 1]) == NamesAt(run, open)[..|open| - 1]; }
  }

  // ---------------------------------------------------------------- the state

  datatype Settings = Settings(tags: Vocabulary, maxChars: Option<int>, unescape: string -> string)

  ghost predicate KeepsBlank(unescape: string -> string) {
    forall s {:trigger unescape(s)} :: Blank(s) ==> Blank(unescape(s))
  }

  datatype State = State(parts: seq<Part>, segments: seq<Segment>, stack: seq<Segmenter.Block>, run: seq<Token>,
                         context: Segmenter.Block, skip: Option<Skip>, rootLang: Option<string>, topLevel: nat,
                         unterminated: bool, pending: seq<string>)

  const BEGIN := State([], [], [], [], ("", None), None, None, 0, false, [])

  function Top(stack: seq<Segmenter.Block>): Segmenter.Block { if stack == [] then ("", None) else stack[|stack| - 1] }

  /** A token joins the run; the first one fixes the block and language the run belongs to. */
  function Push(s: State, token: Token): State {
    s.(run := s.run + [token], context := if s.run != [] then s.context else Top(s.stack))
  }

  function Materialize(s: State): State {
    if s.pending == [] then s else Push(s.(pending := []), TextToken(Join(s.pending)))
  }

  function Append(s: State, token: Token): State { Push(Materialize(s), token) }

  function Buffer(s: State, raw: string): State
    requires s.skip.Some?
  {
    s.(skip := Some(s.skip.value.(buffer := s.skip.value.buffer + [raw])))
  }

  function AddText(s: State, raw: string): State {
    if s.skip.Some? then Buffer(s, raw)
    else if s.pending != [] then s.(pending := s.pending + [raw])
    else if s.run != [] && s.run[|s.run| - 1].kind.Text? then
      s.(run := s.run[..|s.run| - 1], pending := [s.run[|s.run| - 1].raw, raw])
    else s.(pending := [raw])
  }

  function AddRaw(s: State, raw: string): State { s.(parts := s.parts + [Raw(raw)]) }

  function AddOpaque(s: State, raw: string): State {
    if s.skip.Some? then Buffer(s, raw)
    else if s.run != [] || s.pending != [] then Append(s, Token(Protected, raw, "", false))
    else AddRaw(s, raw)
  }

  /** The region goes whole into the run or the parts, by its kind. */
  function EndRegion(s: State): State
    requires s.skip.Some?
  {
    var raw, out := Join(s.skip.value.buffer), s.(skip := None);
    if s.skip.value.toRun then Append(out, Token(Protected, raw, "", false)) else AddRaw(out, raw)
  }

  // ---------------------------------------------------------------- ending a run

  predicate Visible(tokens: seq<Token>, unescape: string -> string) {
    exists t :: t in tokens && t.kind.Text? && !Blank(unescape(t.raw))
  }

  /** The white space cut off the ends stays outside, around the slot. */
  function Surrounded(trimmed: Trimmed, startsWithText: bool, index: nat): seq<Part> {
    (if startsWithText then [Raw(trimmed.lead)] else []) + [Slot(index)]
    + (if trimmed.tail != "" then [Raw(trimmed.tail)] else [])
  }

  function EmitTrimmed(s: State, trimmed: Trimmed, startsWithText: bool): State {
    s.(parts := s.parts + Surrounded(trimmed, startsWithText, |s.segments|),
       segments := s.segments + [Segment(|s.segments|, s.context.0, s.context.1, trimmed.body)])
  }

  /** A chunk becomes a segment if it has visible text, and raw parts if not. */
  function Emit(s: State, tokens: seq<Token>, unescape: string -> string): State {
    var kept := NonEmpty(tokens);
    if !Visible(kept, unescape) then s.(parts := s.parts + Raws(kept)) else EmitTrimmed(s, Trim(kept), kept[0].kind.Text?)
  }

  function EmitAll(s: State, chunks: seq<seq<Token>>, unescape: string -> string): State {
    if chunks == [] then s else Emit(EmitAll(s, chunks[..|chunks| - 1], unescape), chunks[|chunks| - 1], unescape)
  }

  predicate MatchedAt(pairs: seq<Pair>, k: nat) { exists p :: p in pairs && (p.0 == k || p.1 == k) }

  /** Unmatched tags at the beginning of a run, and at its end. */
  function CoreStart(tokens: seq<Token>, pairs: seq<Pair>, start: nat): (r: nat)
    requires start <= |tokens|
    ensures start <= r <= |tokens| && forall k :: start <= k < r ==> tokens[k].kind.Tag? && !MatchedAt(pairs, k)
    ensures r < |tokens| ==> !tokens[r].kind.Tag? || MatchedAt(pairs, r)
    decreases |tokens| - start
  {
    if start < |tokens| && tokens[start].kind.Tag? && !MatchedAt(pairs, start) then CoreStart(tokens, pairs, start + 1) else start
  }

  function CoreEnd(tokens: seq<Token>, pairs: seq<Pair>, start: nat, end: nat): (r: nat)
    requires start <= end <= |tokens|
    ensures start <= r <= end && forall k :: r <= k < end ==> tokens[k].kind.Tag? && !MatchedAt(pairs, k)
    ensures r > start ==> !tokens[r - 1].kind.Tag? || MatchedAt(pairs, r - 1)
  {
    if end > start && tokens[end - 1].kind.Tag? && !MatchedAt(pairs, end - 1) then CoreEnd(tokens, pairs, start, end - 1) else end
  }

  function Core(tokens: seq<Token>, void: set<string>): (r: (nat, nat))
    ensures r.0 <= r.1 <= |tokens|
  {
    var pairs := StrictPairs(tokens, void);
    var start := CoreStart(tokens, pairs, 0);
    (start, CoreEnd(tokens, pairs, start, |tokens|))
  }

  function CoreOf(tokens: seq<Token>, void: set<string>): seq<Token> { tokens[Core(tokens, void).0..Core(tokens, void).1] }

  function RunChunks(tokens: seq<Token>, opts: Settings): seq<seq<Token>> {
    ChunksOf(CoreOf(tokens, opts.tags.void), opts.tags.void, opts.maxChars, opts.unescape)
  }

  /** Unmatched tags at the edges of a run stay outside its segments; the rest is emitted in chunks. */
  function EmitRun(s: State, tokens: seq<Token>, opts: Settings): State {
    var (start, end) := Core(tokens, opts.tags.void);
    var before := s.(parts := s.parts + Raws(tokens[..start]));
    var chunked := EmitAll(before, RunChunks(tokens, opts), opts.unescape);
    chunked.(parts := chunked.parts + Raws(tokens[end..]))
  }

  function Flush(s: State, opts: Settings): State {
    var m := Materialize(s);
    if m.run == [] then m else EmitRun(m.(run := []), m.run, opts)
  }

  // ---------------------------------------------------------------- tags

  function StartBlock(s: State, tag: string, raw: string, lang: Option<string>, void: bool, opts: Settings): State {
    var t := AddRaw(Flush(s, opts), raw);
    t.(stack := OpenBlock(t.stack, tag, lang, void, opts.tags))
  }

  function OpenRegion(s: State, tag: string, raw: string, opts: Settings): State {
    var toRun := InlineTag(tag, opts.tags);
    var m := Materialize(if toRun then s else Flush(s, opts));
    var closers := multiset(Names(m.stack)) + multiset(OpenNames(m.run, opts.tags.void));
    m.(skip := Some(Skip(tag, toRun, [raw], 1, multiset{}, closers)))
  }

  function StartOutside(s: State, event: TagEvent, raw: string, void: bool, opts: Settings): State {
    match RoleOf(event, void, opts.tags)
    case Region => OpenRegion(s, event.tag, raw, opts)
    case Opaque => AddOpaque(s, raw)
    case Inline => Append(s, Token(Tag, raw, event.tag, false))
    case Block => StartBlock(s, event.tag, raw, event.lang, void, opts)
  }

  /** The document's language is the `lang` of its only top-level element. */
  function CountRoot(s: State, lang: Option<string>): State {
    if s.stack != [] then s
    else s.(topLevel := s.topLevel + 1, rootLang := if s.topLevel == 0 then lang else None)
  }

  function OutOfRegion(s: State): State { if s.skip.Some? then EndRegion(s) else s }

  function Start(s: State, event: TagEvent, raw: string, void: bool, opts: Settings): State {
    if InsideRegion(s.skip, event, opts.tags) then s.(skip := Some(StartInside(s.skip.value, event.tag, raw, void)))
    else StartOutside(CountRoot(OutOfRegion(s), event.lang), event, raw, void, opts)
  }

  function EndOutside(s: State, tag: string, raw: string, opts: Settings): State {
    if tag in opts.tags.inline then Append(s, Token(Tag, raw, tag, true))
    else
      var t := AddRaw(Flush(s, opts), raw);
      t.(stack := CloseNamed(t.stack, tag))
  }

  function End(s: State, tag: string, raw: string, opts: Settings): State {
    if s.skip.None? then EndOutside(s, tag, raw, opts)
    else match EndInside(s.skip.value, tag, raw)
      case Stays(skip) => s.(skip := Some(skip))
      case Completes(skip) => EndRegion(s.(skip := Some(skip)))
      case BreaksOff => EndOutside(EndRegion(s), tag, raw, opts)
  }

  // ---------------------------------------------------------------- whole documents

  function Handle(s: State, event: Event, opts: Settings): State {
    var raw := RawText(event);
    match event
    case StartTag(start) => Start(s, start, raw, start.tag in opts.tags.void, opts)
    case StartEndTag(start) => Start(s, start, raw, true, opts)
    case EndTag(tag) => End(s, tag, raw, opts)
    case Data(_) => AddText(s, raw)
    case EntityRef(_) => AddText(s, raw)
    case CharRef(_) => AddText(s, raw)
    case Comment(_) => AddOpaque(s, raw)
    case Declaration(_) => AddOpaque(s, raw)
    case MarkedSection(_) => AddOpaque(s, raw)
    case Instruction(_) => AddOpaque(s, raw)
  }

  function Process(events: seq<Event>, opts: Settings): State {
    if events == [] then BEGIN else Handle(Process(events[..|events| - 1], opts), events[|events| - 1], opts)
  }

  /** A region still open at the end is cut short. */
  function Close(s: State, opts: Settings): State {
    Flush(if s.skip.Some? then EndRegion(s.(unterminated := true)) else s, opts)
  }

  function DocumentOf(events: seq<Event>, opts: Settings): Document {
    var s := Close(Process(events, opts), opts);
    Document(s.parts, s.segments, s.rootLang, s.unterminated)
  }
}
