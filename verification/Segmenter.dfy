/** The HTML segmenter: a machine over parser events that cuts a document into immutable pieces
    and translation segments without losing a character. */
module Segmenter {
  import opened Common
  import opened TagPairs
  import opened Sentences
  import opened Chunking

  // ---------------------------------------------------------------- vocabulary

  /** For each tag: the open tags it closes implicitly, and where the search for them stops. */
  datatype ImpliedEnd = ImpliedEnd(closes: set<string>, boundary: set<string>)

  datatype Vocabulary = Vocabulary(
    inline: set<string>, protectedInline: set<string>, skipped: set<string>, void: set<string>,
    impliedEnd: map<string, ImpliedEnd>)

  const HTML_TAGS := Vocabulary(
    {"a", "abbr", "acronym", "b", "bdi", "bdo", "big", "br", "button", "cite", "data", "del",
     "dfn", "em", "font", "i", "img", "ins", "label", "mark", "nobr", "output", "q", "rp",
     "rt", "ruby", "s", "small", "span", "strike", "strong", "sub", "sup", "time", "tt", "u",
     "wbr"},
    {"code", "kbd", "samp", "var"},
    {"head", "math", "noscript", "pre", "script", "style", "svg", "template", "textarea"},
    {"area", "base", "br", "col", "embed", "hr", "img", "input", "link", "meta", "param",
     "source", "track", "wbr"},
    map["li" := ImpliedEnd({"li"}, {"ul", "ol", "menu"}),
        "dt" := ImpliedEnd({"dt", "dd"}, {"dl"}),
        "dd" := ImpliedEnd({"dt", "dd"}, {"dl"}),
        "td" := ImpliedEnd({"td", "th"}, {"tr", "table"}),
        "th" := ImpliedEnd({"td", "th"}, {"tr", "table"}),
        "tr" := ImpliedEnd({"tr", "td", "th"}, {"table", "thead", "tbody", "tfoot"})])

  const IMPLIED_END_SCAN: nat := 256

  // ---------------------------------------------------------------- documents

  /** An immutable piece of the source, or the slot of a text segment. */
  datatype Part = Raw(text: string) | Slot(index: nat)

  /** A unit of translation: the inline content of one block. */
  datatype Segment = Segment(index: nat, block: string, lang: Option<string>, tokens: seq<Token>)

  datatype Document = Document(parts: seq<Part>, segments: seq<Segment>, rootLang: Option<string>, unterminated: bool)

  function Htmls(segments: seq<Segment>): seq<string> {
    seq(|segments|, i requires 0 <= i < |segments| => Html(segments[i].tokens))
  }

  function Slots(parts: seq<Part>): seq<nat> {
    if parts == [] then [] else
      Slots(parts[..|parts| - 1]) + if parts[|parts| - 1].Slot? then [parts[|parts| - 1].index] else []
  }

  predicate SlotsBelow(parts: seq<Part>, n: nat) {
    forall p :: p in parts && p.Slot? ==> p.index < n
  }

  function PartText(part: Part, translations: seq<string>): string
    requires part.Slot? ==> part.index < |translations|
  {
    if part.Raw? then part.text else translations[part.index]
  }

  /** The parts in order, with every slot filled by its translation. */
  function Fill(parts: seq<Part>, translations: seq<string>): string
    requires SlotsBelow(parts, |translations|)
  {
    if parts == [] then "" else
      Fill(parts[..|parts| - 1], translations) + PartText(parts[|parts| - 1], translations)
  }

  datatype ReassembleError = WrongCount(given: nat, expected: nat)

  function Reassemble(document: Document, translations: seq<string>): Result<string, ReassembleError>
    requires SlotsBelow(document.parts, |document.segments|)
  {
    if |translations| != |document.segments| then Err(WrongCount(|translations|, |document.segments|))
    else Ok(Fill(document.parts, translations))
  }

  lemma FillSnoc(parts: seq<Part>, part: Part, translations: seq<string>)
    requires SlotsBelow(parts, |translations|) && (part.Slot? ==> part.index < |translations|)
    ensures SlotsBelow(parts + [part], |translations|)
    ensures Fill(parts + [part], translations) == Fill(parts, translations) + PartText(part, translations)
    ensures Slots(parts + [part]) == Slots(parts) + if part.Slot? then [part.index] else []
  {
    assert (parts + [part])[..|parts|] == parts;
  }

  lemma {:induction false} FillMore(parts: seq<Part>, translations: seq<string>, extra: string)
    requires SlotsBelow(parts, |translations|)
    ensures SlotsBelow(parts, |translations| + 1)
    ensures Fill(parts, translations + [extra]) == Fill(parts, translations)
  {
    if parts != [] {
      FillMore(parts[..|parts| - 1], translations, extra);
      assert parts[|parts| - 1] in parts;
    }
  }

  function Raws(tokens: seq<Token>): (parts: seq<Part>)
    ensures forall p :: p in parts ==> p.Raw?
  {
    if tokens == [] then [] else Raws(tokens[..|tokens| - 1]) + [Raw(tokens[|tokens| - 1].raw)]
  }

  lemma {:induction false} FillRaws(parts: seq<Part>, tokens: seq<Token>, translations: seq<string>)
    requires SlotsBelow(parts, |translations|)
    ensures SlotsBelow(parts + Raws(tokens), |translations|)
    ensures Fill(parts + Raws(tokens), translations) == Fill(parts, translations) + Html(tokens)
    ensures Slots(parts + Raws(tokens)) == Slots(parts)
  {
    if tokens == [] {
      assert parts + Raws(tokens) == parts;
    } else {
      var front, last := tokens[..|tokens| - 1], Raw(tokens[|tokens| - 1].raw);
      FillRaws(parts, front, translations);
      var grown := parts + Raws(front);
      FillSnoc(grown, last, translations);
      assert parts + Raws(tokens) == grown + [last];
      Regroup(Fill(parts, translations), Html(front), last.text);
    }
  }

  // ---------------------------------------------------------------- trimming a segment

  /** The tokens with source text. */
  function NonEmpty(tokens: seq<Token>): (kept: seq<Token>)
    ensures forall t :: t in kept <==> t in tokens && t.raw != ""
    ensures Html(kept) == Html(tokens) && TextOnly(kept) == TextOnly(tokens)
  {
    if tokens == [] then []
    else
      var last := tokens[|tokens| - 1];
      var front := NonEmpty(tokens[..|tokens| - 1]);
      assert tokens == tokens[..|tokens| - 1] + [last];
      if last.raw != "" then
        HtmlSnoc(front, last);
        assert (front + [last])[..|front|] == front;
        front + [last]
      else
        assert Html(front) + "" == Html(front) && TextOnly(front) + "" == TextOnly(front);
        front
  }

  predicate HasText(tokens: seq<Token>) {
    exists t :: t in tokens && t.kind.Text? && !Blank(t.raw)
  }

  lemma TrimKeepsText(left: seq<Token>, token: Token, trimmed: Token, right: seq<Token>)
    requires token.kind.Text? && trimmed.kind.Text? && (Blank(trimmed.raw) ==> Blank(token.raw))
    requires HasText(left + [token] + right)
    ensures HasText(left + [trimmed] + right)
  {
    var t :| t in left + [token] + right && t.kind.Text? && !Blank(t.raw);
    if t in left || t in right {
      assert t in left + [trimmed] + right;
    } else {
      assert trimmed in left + [trimmed] + right;
    }
  }

  lemma HeadCut(first: Token, rest: seq<Token>, n: nat)
    requires first.kind.Text? && n <= |first.raw| && Blank(first.raw[..n])
    ensures first.raw[..n] + Html([TextToken(first.raw[n..])] + rest) == Html([first] + rest)
    ensures first.raw[..n] + TextOnly([TextToken(first.raw[n..])] + rest) == TextOnly([first] + rest)
    ensures HasText([first] + rest) ==> HasText([TextToken(first.raw[n..])] + rest)
  {
    var cut := TextToken(first.raw[n..]);
    assert first.raw == first.raw[..n] + first.raw[n..];
    HtmlConcat([first], rest);
    HtmlConcat([cut], rest);
    HtmlOne(first);
    HtmlOne(cut);
    Regroup(first.raw[..n], cut.raw, Html(rest));
    TextOnlyConcat([first], rest);
    TextOnlyConcat([cut], rest);
    TextOnlyOne(first);
    TextOnlyOne(cut);
    Regroup(first.raw[..n], cut.raw, TextOnly(rest));
    assert [] + [first] + rest == [first] + rest && [] + [cut] + rest == [cut] + rest;
    if HasText([first] + rest) { TrimKeepsText([], first, cut, rest); }
  }

  lemma TailCutHtml(front: seq<Token>, last: Token, cut: Token, rest: string)
    requires last.raw == cut.raw + rest
    ensures Html(front + [cut]) + rest == Html(front + [last])
  {
    HtmlSnoc(front, last);
    HtmlSnoc(front, cut);
    Regroup(Html(front), cut.raw, rest);
  }

  lemma TailCut(front: seq<Token>, last: Token, n: nat)
    requires last.kind.Text? && n <= |last.raw| && Blank(last.raw[n..])
    ensures Html(front + [TextToken(last.raw[..n])]) + last.raw[n..] == Html(front + [last])
    ensures TextOnly(front + [TextToken(last.raw[..n])]) + last.raw[n..] == TextOnly(front + [last])
    ensures HasText(front + [last]) ==> HasText(front + [TextToken(last.raw[..n])])
  {
    var cut := TextToken(last.raw[..n]);
    TailCutHtml(front, last, cut, last.raw[n..]);
    assert last.raw == last.raw[..n] + last.raw[n..];
    TextOnlyConcat(front, [last]);
    TextOnlyConcat(front, [cut]);
    TextOnlyOne(last);
    TextOnlyOne(cut);
    Regroup(TextOnly(front), cut.raw, last.raw[n..]);
    assert front + [last] + [] == front + [last] && front + [cut] + [] == front + [cut];
    if HasText(front + [last]) { TrimKeepsText(front, last, cut, []); }
  }

  /** Leading white space of a first text token, and the tokens without it. */
  function TrimHead(tokens: seq<Token>): (r: (string, seq<Token>))
    requires tokens != []
    ensures r.1 != [] && r.0 + Html(r.1) == Html(tokens) && Blank(r.0)
    ensures r.0 + TextOnly(r.1) == TextOnly(tokens)
    ensures HasText(tokens) ==> HasText(r.1)
    ensures !tokens[0].kind.Text? ==> r.0 == ""
    ensures r.1[0].kind.Text? ==> r.1[0].raw == "" || !Space(r.1[0].raw[0])
  {
    if tokens[0].kind.Text? then
      var head, rest := tokens[0].raw, tokens[1..];
      var n := LeadingSpace(head);
      var trimmed := [TextToken(head[n..])] + rest;
      HeadCut(tokens[0], rest, n);
      assert tokens == [tokens[0]] + rest;
      (head[..n], trimmed)
    else
      ("", tokens)
  }

  /** Trailing white space of a last text token, and the tokens without it. */
  function TrimTail(tokens: seq<Token>): (r: (seq<Token>, string))
    requires tokens != []
    ensures r.0 != [] && Html(r.0) + r.1 == Html(tokens) && Blank(r.1)
    ensures TextOnly(r.0) + r.1 == TextOnly(tokens)
    ensures HasText(tokens) ==> HasText(r.0)
    ensures var last := r.0[|r.0| - 1]; last.kind.Text? ==> last.raw == "" || !Space(last.raw[|last.raw| - 1])
  {
    var last, front := tokens[|tokens| - 1], tokens[..|tokens| - 1];
    if last.kind.Text? then
      var n := TrimmedLength(last.raw);
      var trimmed := front + [TextToken(last.raw[..n])];
      TailCut(front, last, n);
      assert tokens == front + [last];
      (trimmed, last.raw[n..])
    else
      (tokens, "")
  }

  lemma NonEmptyHasText(tokens: seq<Token>)
    requires HasText(tokens)
    ensures HasText(NonEmpty(tokens))
  {
    var t :| t in tokens && t.kind.Text? && !Blank(t.raw);
    assert t in NonEmpty(tokens);
  }

  datatype Trimmed = Trimmed(lead: string, body: seq<Token>, tail: string)

  /** What is left of a chunk once its outer white space is set aside. */
  function Trim(tokens: seq<Token>): (r: Trimmed)
    requires tokens != []
    ensures r.lead + Html(r.body) + r.tail == Html(tokens)
    ensures r.lead + TextOnly(r.body) + r.tail == TextOnly(tokens)
    ensures (HasText(tokens) ==> HasText(r.body)) && (forall t :: t in r.body ==> t.raw != "")
    ensures Blank(r.lead) && Blank(r.tail)
    ensures !tokens[0].kind.Text? ==> r.lead == ""
  {
    var (lead, rest) := TrimHead(tokens);
    var (middle, tail) := TrimTail(rest);
    var body := NonEmpty(middle);
    assert HasText(middle) ==> HasText(body) by { if HasText(middle) { NonEmptyHasText(middle); } }
    Regroup(lead, Html(body), tail);
    Regroup(lead, TextOnly(body), tail);
    Trimmed(lead, body, tail)
  }

  // ---------------------------------------------------------------- the stack of open blocks

  /** An open block element and the language in force inside it. */
  type Block = (string, Option<string>)

  function Names(stack: seq<Block>): seq<string> {
    seq(|stack|, i requires 0 <= i < |stack| => stack[i].0)
  }

  lemma NamesSplit(stack: seq<Block>, position: nat)
    requires position <= |stack|
    ensures multiset(Names(stack)) == multiset(Names(stack[..position])) + multiset(Names(stack[position..]))
  {
    assert Names(stack) == Names(stack[..position]) + Names(stack[position..]);
  }

  /** An end tag closes the innermost block of its name and everything above it. */
  function CloseNamed(stack: seq<Block>, tag: string): (rest: seq<Block>)
    ensures rest <= stack
    ensures rest == stack <==> tag !in Names(stack)
    ensures rest != stack ==> stack[|rest|].0 == tag && forall k :: |rest| < k < |stack| ==> stack[k].0 != tag
  {
    if stack == [] then stack
    else if stack[|stack| - 1].0 == tag then
      assert Names(stack)[|stack| - 1] == tag;
      stack[..|stack| - 1]
    else
      var rest := CloseNamed(stack[..|stack| - 1], tag);
      assert Names(stack) == Names(stack[..|stack| - 1]) + [stack[|stack| - 1].0];
      if rest == stack[..|stack| - 1] then stack else rest
  }

  /** How far down an implied end tag reaches: to the innermost block it closes, unless a boundary
      block or the scan limit comes first. */
  function ImpliedFloor(stack: seq<Block>, top: nat, lowest: nat, implied: ImpliedEnd): (floor: nat)
    requires lowest <= top <= |stack| || top == 0
    requires top <= |stack|
    ensures floor <= |stack|
    ensures floor < |stack| ==> lowest <= floor < top && stack[floor].0 in implied.closes && stack[floor].0 !in implied.boundary
    ensures floor < |stack| ==> forall k :: floor < k < top ==> stack[k].0 !in implied.boundary && stack[k].0 !in implied.closes
    decreases top
  {
    if top <= lowest then |stack|
    else if stack[top - 1].0 in implied.boundary then |stack|
    else if stack[top - 1].0 in implied.closes then top - 1
    else ImpliedFloor(stack, top - 1, lowest, implied)
  }

  function WithoutParagraph(stack: seq<Block>): seq<Block> {
    if stack != [] && stack[|stack| - 1].0 == "p" then stack[..|stack| - 1] else stack
  }

  function CloseImplied(stack: seq<Block>, tag: string, tags: Vocabulary): seq<Block> {
    if tag in tags.impliedEnd then
      var lowest := if |stack| > IMPLIED_END_SCAN then |stack| - IMPLIED_END_SCAN else 0;
      stack[..ImpliedFloor(stack, |stack|, lowest, tags.impliedEnd[tag])]
    else stack
  }

  /** The stack after a block start tag: an open paragraph ends, implied ends apply, and a
      non-void block is pushed with its own or the inherited language. */
  function OpenBlock(stack: seq<Block>, tag: string, lang: Option<string>, void: bool, tags: Vocabulary): seq<Block> {
    var below := CloseImplied(WithoutParagraph(stack), tag, tags);
    if void then below else below + [(tag, EffectiveLang(lang, below))]
  }

  function EffectiveLang(lang: Option<string>, stack: seq<Block>): Option<string> {
    if lang.Some? && lang.value != "" then lang
    else if stack == [] then None else stack[|stack| - 1].1
  }

  /** A block ends by implication exactly when one that the tag closes is open above every boundary. */
  lemma {:induction false} ImpliedExactlyWhen(stack: seq<Block>, top: nat, lowest: nat, implied: ImpliedEnd)
    requires top <= |stack| && (lowest <= top || top == 0)
    ensures ImpliedFloor(stack, top, lowest, implied) < |stack| <==>
      exists k :: lowest <= k < top && stack[k].0 in implied.closes && forall m :: k <= m < top ==> stack[m].0 !in implied.boundary
  {
    if top > lowest && stack[top - 1].0 !in implied.boundary {
      if stack[top - 1].0 in implied.closes {
        assert stack[top - 1].0 in implied.closes && forall m :: top - 1 <= m < top ==> stack[m].0 !in implied.boundary;
      } else {
        ImpliedExactlyWhen(stack, top - 1, lowest, implied);
      }
    }
  }

  /** With none of its names on the stack an implied end tag closes nothing: the counters'
      shortcut is an optimisation. */
  lemma {:induction false} NothingToClose(stack: seq<Block>, top: nat, lowest: nat, implied: ImpliedEnd)
    requires top <= |stack| && (lowest <= top || top == 0)
    requires forall name :: name in implied.closes ==> name !in Names(stack)
    ensures ImpliedFloor(stack, top, lowest, implied) == |stack|
  {
    if top > lowest {
      assert Names(stack)[top - 1] == stack[top - 1].0;
      if stack[top - 1].0 !in implied.boundary { NothingToClose(stack, top - 1, lowest, implied); }
    }
  }
}
