/** The placeholder notation `<x id="N"/>`: writing it, finding it, and substituting it. */
module Placeholders {
  import opened Common
  import opened Sentences

  // ---------------------------------------------------------------- decimal numerals

  predicate Digit(c: char) { '0' <= c <= '9' }

  function DigitOf(n: nat): char
    requires n < 10
  {
    '0' + n as char
  }

  function Decimal(n: nat): (text: string)
    ensures text != "" && forall c :: c in text ==> Digit(c)
  {
    if n < 10 then [DigitOf(n)] else Decimal(n / 10) + [DigitOf(n % 10)]
  }

  function Number(text: string): nat
    requires forall c :: c in text ==> Digit(c)
  {
    if text == "" then 0
    else
      assert Digit(text[|text| - 1]);
      Number(text[..|text| - 1]) * 10 + (text[|text| - 1] as int - '0' as int)
  }

  lemma {:induction false} NumberOfDecimal(n: nat)
    ensures Number(Decimal(n)) == n
  {
    if n >= 10 {
      NumberOfDecimal(n / 10);
      assert Decimal(n)[..|Decimal(n)| - 1] == Decimal(n / 10);
    } else {
      assert Decimal(n)[..0] == "";
    }
  }

  function DigitRun(text: string): (n: nat)
    ensures n <= |text| && forall k :: 0 <= k < n ==> Digit(text[k])
    ensures n < |text| ==> !Digit(text[n])
  {
    if text == "" || !Digit(text[0]) then 0 else 1 + DigitRun(text[1..])
  }

  lemma {:induction false} DigitRunStops(digits: string, rest: string)
    requires (forall c :: c in digits ==> Digit(c)) && (rest == "" || !Digit(rest[0]))
    ensures DigitRun(digits + rest) == |digits|
  {
    if digits != "" {
      assert (digits + rest)[1..] == digits[1..] + rest;
      DigitRunStops(digits[1..], rest);
    } else {
      assert digits + rest == rest;
    }
  }

  // ---------------------------------------------------------------- the notation

  function Mark(id: nat): string { "<x id=\"" + Decimal(id) + "\"/>" }

  datatype Match = Match(id: nat, length: nat)

  /** What follows `<x id="` (any white space before the attribute), if the text starts with it. */
  function AfterName(text: string): (rest: Option<string>)
    ensures rest.Some? ==> |rest.value| < |text| && text[0] == '<'
  {
    if !("<x" <= text) then None else
      var spaces := LeadingSpace(text[2..]);
      var attribute := text[2..][spaces..];
      if spaces > 0 && "id=\"" <= attribute then Some(attribute[4..]) else None
  }

  /** What follows the closing quote and bracket, with white space and `/` between them optional. */
  function AfterAngle(text: string): (rest: Option<string>)
    ensures rest.Some? ==> |rest.value| < |text|
  {
    if text == "" || text[0] != '"' then None else
      var end := text[1..][LeadingSpace(text[1..])..];
      var angle := if end != "" && end[0] == '/' then end[1..] else end;
      if angle != "" && angle[0] == '>' then Some(angle[1..]) else None
  }

  /** The text after a closing `</x>`, if one follows (white space aside). */
  function AfterCloser(text: string): (rest: string)
    ensures |rest| <= |text|
  {
    var inner := text[LeadingSpace(text)..];
    if "</x>" <= inner then inner[4..] else text
  }

  /** The number at the start of an attribute value and what follows the whole placeholder. */
  function MatchValue(value: string): (m: Option<(nat, string)>)
    ensures m.Some? ==> |m.value.1| < |value|
  {
    var digits := DigitRun(value);
    if digits == 0 then None
    else match AfterAngle(value[digits..])
      case None => None
      case Some(rest) => Some((Number(value[..digits]), AfterCloser(rest)))
  }

  /** The placeholder the text starts with, if any: `<x id="N"/>`, `<x id="N">` or either followed
      by `</x>`, with white space where the notation allows it. */
  function MatchHere(text: string): (m: Option<Match>)
    ensures m.Some? ==> 0 < m.value.length <= |text| && text[0] == '<'
  {
    match AfterName(text)
    case None => None
    case Some(value) =>
      match MatchValue(value)
      case None => None
      case Some((id, rest)) => Some(Match(id, |text| - |rest|))
  }

  /** The ids of all placeholders, from left to right. */
  function FoundIds(text: string): seq<nat>
    decreases |text|
  {
    if text == "" then []
    else match MatchHere(text)
      case Some(m) => [m.id] + FoundIds(text[m.length..])
      case None => FoundIds(text[1..])
  }

  /** Every placeholder with a known id replaced; unknown ids stay as they are. */
  function Substitute(text: string, replacements: map<nat, string>): string
    decreases |text|
  {
    if text == "" then ""
    else match MatchHere(text)
      case Some(m) =>
        (if m.id in replacements then replacements[m.id] else text[..m.length]) +
        Substitute(text[m.length..], replacements)
      case None => [text[0]] + Substitute(text[1..], replacements)
  }

  // ---------------------------------------------------------------- text built from pieces

  /** A masked text before it is written out: escaped text and placeholders. */
  datatype Piece = Plain(text: string) | Hole(id: nat)

  function Write(piece: Piece): string {
    if piece.Plain? then piece.text else Mark(piece.id)
  }

  function Render(pieces: seq<Piece>): string {
    if pieces == [] then "" else Write(pieces[0]) + Render(pieces[1..])
  }

  function Ids(pieces: seq<Piece>): seq<nat> {
    if pieces == [] then [] else (if pieces[0].Hole? then [pieces[0].id] else []) + Ids(pieces[1..])
  }

  /** The text with every hole filled. */
  function Filled(pieces: seq<Piece>, replacements: map<nat, string>): string
    requires forall p :: p in pieces && p.Hole? ==> p.id in replacements
  {
    if pieces == [] then "" else
      (if pieces[0].Plain? then pieces[0].text else replacements[pieces[0].id]) + Filled(pieces[1..], replacements)
  }

  predicate NoAngle(text: string) { '<' !in text }

  /** Escaped text never looks like markup. */
  predicate Escaped(pieces: seq<Piece>) {
    forall p :: p in pieces && p.Plain? ==> NoAngle(p.text)
  }

  /** Every `<` starts a placeholder, so no stray `</x>` can follow one. */
  predicate OnlyMarks(text: string) {
    forall k :: 0 <= k < |text| && text[k] == '<' ==> k + 1 < |text| && text[k + 1] == 'x'
  }

  lemma MarkShape(id: nat)
    ensures OnlyMarks(Mark(id)) && |Mark(id)| > 2 && Mark(id)[0] == '<'
  {
    var text := Mark(id);
    var digits := Decimal(id);
    assert text == "<x id=\"" + digits + "\"/>";
    forall k | 0 <= k < |text| && text[k] == '<' ensures k == 0 {
      assert 7 <= k < 7 + |digits| ==> text[k] == digits[k - 7] && Digit(text[k]);
    }
  }

  lemma {:induction false} RenderOnlyMarks(pieces: seq<Piece>)
    requires Escaped(pieces)
    ensures OnlyMarks(Render(pieces))
  {
    if pieces != [] {
      RenderOnlyMarks(pieces[1..]);
      if pieces[0].Hole? {
        MarkShape(pieces[0].id);
        OnlyMarksConcat(Mark(pieces[0].id), Render(pieces[1..]));
      } else {
        assert pieces[0] in pieces;
        OnlyMarksConcat(pieces[0].text, Render(pieces[1..]));
      }
    }
  }

  lemma OnlyMarksConcat(a: string, b: string)
    requires OnlyMarks(a) && OnlyMarks(b)
    ensures OnlyMarks(a + b)
  {
    forall k | 0 <= k < |a + b| && (a + b)[k] == '<' ensures k + 1 < |a + b| && (a + b)[k + 1] == 'x' {
      if k < |a| { assert a[k] == '<'; } else { assert b[k - |a|] == '<'; }
    }
  }

  /** A written placeholder is read back with its own id and length. */
  lemma MatchMark(id: nat, rest: string)
    requires OnlyMarks(rest)
    ensures MatchHere(Mark(id) + rest) == Some(Match(id, |Mark(id)|))
  {
    NameOfMark(Decimal(id) + ("\"/>" + rest));
    assert Mark(id) + rest == "<x id=\"" + (Decimal(id) + ("\"/>" + rest));
    ValueOfMark(id, rest);
  }

  lemma NameOfMark(value: string)
    ensures AfterName("<x id=\"" + value) == Some(value)
  {
    var text := "<x id=\"" + value;
    var afterName := text[2..];
    assert afterName == " id=\"" + value;
    assert afterName[0] == ' ' && afterName[1..][0] == 'i';
    assert LeadingSpace(afterName) == 1;
    assert afterName[1..] == "id=\"" + value;
    assert ("id=\"" + value)[4..] == value;
  }

  lemma ValueOfMark(id: nat, rest: string)
    requires OnlyMarks(rest)
    ensures MatchValue(Decimal(id) + ("\"/>" + rest)) == Some((id, rest))
  {
    var digits, tail := Decimal(id), "\"/>" + rest;
    DigitRunStops(digits, tail);
    NumberOfDecimal(id);
    assert (digits + tail)[..|digits|] == digits && (digits + tail)[|digits|..] == tail;
    AngleOfMark(rest);
    NoCloser(rest);
  }

  lemma AngleOfMark(rest: string)
    ensures AfterAngle("\"/>" + rest) == Some(rest)
  {
    var text := "\"/>" + rest;
    assert text[1..] == "/>" + rest && text[1..][0..] == text[1..];
    assert text[1..][1..] == ">" + rest;
    assert (">" + rest)[1..] == rest;
  }

  lemma NoCloser(rest: string)
    requires OnlyMarks(rest)
    ensures AfterCloser(rest) == rest
  {
    var n := LeadingSpace(rest);
    assert n + 1 < |rest| ==> rest[n] == '<' ==> rest[n + 1] == 'x';
    assert n + 1 < |rest| ==> rest[n..][0] == rest[n] && rest[n..][1] == rest[n + 1];
    assert "</x>"[0] == '<' && "</x>"[1] == '/';
  }

  lemma {:induction false} SkipPlainIds(text: string, rest: string)
    requires NoAngle(text)
    ensures FoundIds(text + rest) == FoundIds(rest)
  {
    if text == "" {
      assert text + rest == rest;
    } else {
      var all := text + rest;
      assert all[1..] == text[1..] + rest && all[0] == text[0] && text[0] in text;
      SkipPlainIds(text[1..], rest);
    }
  }

  lemma {:induction false} SkipPlainText(text: string, rest: string, replacements: map<nat, string>)
    requires NoAngle(text)
    ensures Substitute(text + rest, replacements) == text + Substitute(rest, replacements)
  {
    if text == "" {
      assert text + rest == rest;
    } else {
      var all := text + rest;
      assert all[1..] == text[1..] + rest && all[0] == text[0] && text[0] in text;
      SkipPlainText(text[1..], rest, replacements);
      PutBack(text, Substitute(rest, replacements));
    }
  }

  lemma PutBack(text: string, tail: string)
    requires text != ""
    ensures [text[0]] + (text[1..] + tail) == text + tail
  {
    assert text == [text[0]] + text[1..];
  }

  /** Reading a rendered text finds exactly its holes, and substituting fills exactly them. */
  lemma {:induction false} RenderedIsReadBack(pieces: seq<Piece>, replacements: map<nat, string>)
    requires Escaped(pieces)
    requires forall p :: p in pieces && p.Hole? ==> p.id in replacements
    ensures FoundIds(Render(pieces)) == Ids(pieces)
    ensures Substitute(Render(pieces), replacements) == Filled(pieces, replacements)
  {
    if pieces != [] {
      var piece, rest := pieces[0], Render(pieces[1..]);
      assert piece in pieces;
      RenderedIsReadBack(pieces[1..], replacements);
      if piece.Plain? {
        SkipPlainIds(piece.text, rest);
        SkipPlainText(piece.text, rest, replacements);
      } else {
        RenderOnlyMarks(pieces[1..]);
        MatchMark(piece.id, rest);
        assert (Mark(piece.id) + rest)[|Mark(piece.id)|..] == rest;
      }
    }
  }

  // ---------------------------------------------------------------- pieces put together

  lemma {:induction false} PiecesConcat(a: seq<Piece>, b: seq<Piece>)
    ensures Render(a + b) == Render(a) + Render(b) && Ids(a + b) == Ids(a) + Ids(b)
  {
    if a == [] {
      assert a + b == b;
    } else {
      assert (a + b)[1..] == a[1..] + b;
      PiecesConcat(a[1..], b);
    }
  }

  lemma {:induction false} FilledConcat(a: seq<Piece>, b: seq<Piece>, replacements: map<nat, string>)
    requires forall p :: p in a + b && p.Hole? ==> p.id in replacements
    ensures forall p :: p in a && p.Hole? ==> p.id in replacements
    ensures forall p :: p in b && p.Hole? ==> p.id in replacements
    ensures Filled(a + b, replacements) == Filled(a, replacements) + Filled(b, replacements)
  {
    assert forall p :: p in a || p in b ==> p in a + b;
    if a == [] {
      assert a + b == b;
    } else {
      assert (a + b)[1..] == a[1..] + b;
      FilledConcat(a[1..], b, replacements);
    }
  }
}
