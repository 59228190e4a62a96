/** White space and sentence ends, as the segmenter's regular expressions see them. */
module Sentences {
  import opened Common

  /** White space as `str.strip` and the regular expressions see it. */
  predicate Space(c: char) {
    || '\t' <= c <= '\r' || '\U{1C}' <= c <= ' ' || c == '\U{85}' || c == '\U{A0}' || c == '\U{1680}'
    || '\U{2000}' <= c <= '\U{200A}' || c == '\U{2028}' || c == '\U{2029}' || c == '\U{202F}'
    || c == '\U{205F}' || c == '\U{3000}'
  }

  predicate EndsSentence(c: char) { c == '.' || c == '!' || c == '?' || c == '\U{2026}' }

  predicate ClosesQuote(c: char) {
    c == '"' || c == '\'' || c == '\U{BB}' || c == '\U{201D}' || c == '\U{2019}' || c == ')'
  }

  predicate Blank(text: string) { forall c :: c in text ==> Space(c) }

  /** Length of the white space that `lstrip` removes. */
  function LeadingSpace(text: string): (n: nat)
    ensures n <= |text| && Blank(text[..n]) && (n < |text| ==> !Space(text[n]))
  {
    if text == "" || !Space(text[0]) then 0 else 1 + LeadingSpace(text[1..])
  }

  /** Length of what `rstrip` keeps. */
  function TrimmedLength(text: string): (n: nat)
    ensures n <= |text| && Blank(text[n..]) && (n > 0 ==> !Space(text[n - 1]))
  {
    if text == "" then 0
    else if Space(text[|text| - 1]) then
      var n := TrimmedLength(text[..|text| - 1]);
      assert text[n..] == text[..|text| - 1][n..] + [text[|text| - 1]];
      n
    else |text|
  }

  /** The text ends a sentence: a terminator, closing quotes, then at most one newline. */
  predicate SentenceTail(text: string) {
    TailFrom(text) || (text != "" && text[|text| - 1] == '\n' && TailFrom(text[..|text| - 1]))
  }

  predicate TailFrom(text: string) {
    text != "" &&
    (EndsSentence(text[|text| - 1]) ||
     (ClosesQuote(text[|text| - 1]) && TailFrom(text[..|text| - 1])))
  }

  /** A sentence boundary: white space right after a terminator. */
  predicate SentenceStart(text: string, k: nat) {
    0 < k < |text| && EndsSentence(text[k - 1]) && Space(text[k])
  }

  /** A sentence contains no boundary of its own. */
  predicate OneSentence(text: string) {
    text != "" && forall k: nat :: k < |text| ==> !SentenceStart(text, k)
  }

  /** The cut between two pieces is a sentence boundary. */
  predicate CutBetween(left: string, right: string) {
    left != "" && right != "" && EndsSentence(left[|left| - 1]) && Space(right[0])
  }

  /** The last sentence boundary before `k`, or the beginning. */
  function LastStart(text: string, k: nat): (m: nat)
    requires k <= |text|
    ensures m <= k && (m < k || k == 0) && (m == 0 || SentenceStart(text, m))
    ensures forall j :: m < j < k ==> !SentenceStart(text, j)
  {
    if k == 0 then 0 else if SentenceStart(text, k - 1) then k - 1 else LastStart(text, k - 1)
  }

  /** The sentences of a text: "A. B. C" becomes "A.", " B.", " C", the space starting the next one. */
  function Pieces(text: string): seq<string>
    decreases |text|
  {
    if text == "" then []
    else Pieces(text[..LastStart(text, |text|)]) + [text[LastStart(text, |text|)..]]
  }

  /** A sentence ends at `n`: there the text ends or a boundary lies, and what lies between it and the
      boundary before has a sentence tail. */
  predicate SentenceEnd(text: string, n: nat) {
    EndsPiece(text, n) && SentenceTail(text[LastStart(text, n)..n])
  }

  predicate EndsPiece(text: string, n: nat) { 0 < n <= |text| && (n == |text| || SentenceStart(text, n)) }

  lemma SameStarts(text: string, m: nat, k: nat)
    requires k <= m <= |text|
    ensures LastStart(text[..m], k) == LastStart(text, k)
  {
    var a, b := LastStart(text[..m], k), LastStart(text, k);
    assert forall j: nat :: j < k ==> (SentenceStart(text[..m], j) <==> SentenceStart(text, j));
    assert a > 0 ==> SentenceStart(text, a);
    assert b > 0 ==> SentenceStart(text[..m], b);
  }

  /** The pieces are what lies between neighbouring ends. */
  lemma {:induction false} PieceAt(text: string, i: nat)
    requires 0 < i <= |Pieces(text)|
    ensures var n := |Join(Pieces(text)[..i])|;
            && EndsPiece(text, n) && Join(Pieces(text)[..i]) == text[..n]
            && Pieces(text)[i - 1] == text[LastStart(text, n)..n]
    decreases |text|
  {
    var m := LastStart(text, |text|);
    var before := Pieces(text[..m]);
    PiecesJoin(text);
    if i == |Pieces(text)| {
      assert Pieces(text)[..i] == Pieces(text);
      assert text[..|text|] == text;
    } else {
      assert Pieces(text)[..i] == before[..i];
      PieceAt(text[..m], i);
      var n := |Join(before[..i])|;
      SameStarts(text, m, n);
    }
  }

  /** Every end is that of a piece. */
  lemma {:induction false} EndOfPiece(text: string, n: nat) returns (i: nat)
    requires EndsPiece(text, n)
    ensures 0 < i <= |Pieces(text)| && |Join(Pieces(text)[..i])| == n
    decreases |text|
  {
    var m := LastStart(text, |text|);
    var before := Pieces(text[..m]);
    if n == |text| {
      i := |Pieces(text)|;
      PiecesJoin(text);
      assert Pieces(text)[..i] == Pieces(text);
    } else {
      i := EndOfPiece(text[..m], n);
      assert Pieces(text)[..i] == before[..i];
    }
  }

  lemma {:induction false} PiecesJoin(text: string)
    ensures Join(Pieces(text)) == text
    decreases |text|
  {
    if text != "" {
      var m := LastStart(text, |text|);
      PiecesJoin(text[..m]);
      JoinSnoc(Pieces(text[..m]), text[m..]);
      assert text[..m] + text[m..] == text;
    }
  }

  /** One more piece, from the last boundary up to the next. */
  lemma OneMorePiece(text: string, m: nat, k: nat)
    requires m < k <= |text| && (m == 0 || SentenceStart(text, m)) && forall j :: m < j < k ==> !SentenceStart(text, j)
    ensures Pieces(text[..k]) == Pieces(text[..m]) + [text[m..k]]
  {
    SameStarts(text, k, k);
    assert LastStart(text, k) == m;
    assert text[..k][..m] == text[..m] && text[..k][m..] == text[m..k];
  }

  /** The pieces of a text: each holds one sentence, and every cut is a boundary. */
  method SplitKeepingWhitespace(raw: string) returns (pieces: seq<string>)
    ensures pieces == Pieces(raw) && Join(pieces) == raw
    ensures forall i :: 0 <= i < |pieces| ==> OneSentence(pieces[i])
    ensures forall i :: 0 < i < |pieces| ==> CutBetween(pieces[i - 1], pieces[i])
  {
    pieces := [];
    var position := 0;
    for k := 0 to |raw|
      invariant position <= k && pieces == Pieces(raw[..position])
      invariant position < k || position == 0
      invariant position == 0 || SentenceStart(raw, position)
      invariant forall m :: position < m < k ==> !SentenceStart(raw, m)
    {
      if SentenceStart(raw, k) {
        OneMorePiece(raw, position, k);
        pieces := pieces + [raw[position..k]];
        position := k;
      }
    }
    if raw != "" {
      OneMorePiece(raw, position, |raw|);
      pieces := pieces + [raw[position..]];
      assert raw[..|raw|] == raw;
    }
    PiecesJoin(raw);
    PiecesAreSentences(raw);
  }

  lemma {:induction false} PiecesAreSentences(text: string)
    ensures forall i :: 0 <= i < |Pieces(text)| ==> OneSentence(Pieces(text)[i])
    ensures forall i :: 0 < i < |Pieces(text)| ==> CutBetween(Pieces(text)[i - 1], Pieces(text)[i])
    ensures text != "" ==> Pieces(text) != [] && LastChar(Pieces(text), text[|text| - 1])
    decreases |text|
  {
    if text != "" {
      var m := LastStart(text, |text|);
      var piece := text[m..];
      PiecesAreSentences(text[..m]);
      forall k: nat | k < |piece| ensures !SentenceStart(piece, k) {
        assert k > 0 && SentenceStart(piece, k) ==> SentenceStart(text, m + k);
      }
      assert OneSentence(piece);
      assert m > 0 ==> CutBetween(Pieces(text[..m])[|Pieces(text[..m])| - 1], piece);
    }
  }

  predicate LastChar(pieces: seq<string>, c: char)
    requires pieces != []
  {
    var piece := pieces[|pieces| - 1];
    piece != "" && piece[|piece| - 1] == c
  }
}
