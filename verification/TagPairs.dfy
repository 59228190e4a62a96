/** Tokens of a segment and the strict stack matching of its inline tags. */
module TagPairs {
  datatype TokenKind = Text | Tag | Protected

  /** A raw piece of HTML inside a segment: escaped text, an inline tag, or a protected block. */
  datatype Token = Token(kind: TokenKind, raw: string, name: string, closing: bool)

  function TextToken(raw: string): Token { Token(Text, raw, "", false) }

  type Pair = (nat, nat)

  predicate Opens(token: Token, void: set<string>) {
    token.kind.Tag? && token.name !in void && !token.closing
  }

  predicate Closes(token: Token, void: set<string>) {
    token.kind.Tag? && token.name !in void && token.closing
  }

  /** The start tag at `i` has not been closed by an end tag before position `k`. */
  ghost predicate StillOpen(tokens: seq<Token>, void: set<string>, pairs: seq<Pair>, i: nat, k: nat) {
    && i < k && i < |tokens| && Opens(tokens[i], void)
    && forall p :: p in pairs && p.0 == i ==> k <= p.1
  }

  /** `i` is the innermost start tag still open at `k`. */
  ghost predicate Innermost(tokens: seq<Token>, void: set<string>, pairs: seq<Pair>, i: nat, k: nat) {
    && StillOpen(tokens, void, pairs, i, k)
    && forall m: nat :: i < m < k ==> !StillOpen(tokens, void, pairs, m, k)
  }

  /** What strict matching means: an end tag is paired exactly with the innermost open start tag,
      and only when their names agree. */
  ghost predicate StrictMatching(tokens: seq<Token>, void: set<string>, pairs: seq<Pair>) {
    forall i: nat, j: nat :: (i, j) in pairs <==>
      && j < |tokens| && Closes(tokens[j], void)
      && Innermost(tokens, void, pairs, i, j) && tokens[i].name == tokens[j].name
  }

  predicate Crossing(p: Pair, q: Pair) { p.0 < q.0 < p.1 < q.1 }

  /** No index is used twice and no two pairs overlap without nesting. */
  ghost predicate WellNested(pairs: seq<Pair>) {
    && (forall a, b :: 0 <= a < b < |pairs| ==> pairs[a].1 < pairs[b].1 && pairs[a].0 != pairs[b].0)
    && (forall p, q :: p in pairs && q in pairs ==> !Crossing(p, q) && p.0 < p.1 && p.0 != q.1)
  }

  /** Every pair lies strictly inside the first `n` positions. */
  ghost predicate Below(pairs: seq<Pair>, n: nat) {
    forall p :: p in pairs ==> p.0 < p.1 < n
  }

  /** What holds between two tokens: `stack` lists the open start tags in order, none of them lies
      inside a finished pair, and `pairs` is the strict matching of the first `n` tokens. */
  ghost predicate Matched(tokens: seq<Token>, void: set<string>, pairs: seq<Pair>, stack: seq<nat>, n: nat) {
    && n <= |tokens| && WellNested(pairs) && Below(pairs, n)
    && (forall a, b :: 0 <= a < b < |stack| ==> stack[a] < stack[b])
    && (forall a :: 0 <= a < |stack| ==> stack[a] < n)
    && Lists(tokens, void, pairs, stack, n)
    && Outside(stack, pairs)
    && MatchedUpTo(tokens, void, pairs, n)
  }

  ghost predicate Lists(tokens: seq<Token>, void: set<string>, pairs: seq<Pair>, stack: seq<nat>, n: nat) {
    forall i: nat :: i in stack <==> StillOpen(tokens, void, pairs, i, n)
  }

  ghost predicate Outside(stack: seq<nat>, pairs: seq<Pair>) {
    forall s, p :: s in stack && p in pairs ==> !(p.0 <= s <= p.1)
  }

  ghost predicate MatchedUpTo(tokens: seq<Token>, void: set<string>, pairs: seq<Pair>, n: nat)
    requires n <= |tokens|
  {
    forall i: nat, j: nat :: (i, j) in pairs <==>
      && j < n && Closes(tokens[j], void)
      && Innermost(tokens, void, pairs, i, j) && tokens[i].name == tokens[j].name
  }

  /** Pairs so far and the start tags still held, after the token at `k`. */
  function MatchStep(tokens: seq<Token>, void: set<string>, pairs: seq<Pair>, stack: seq<nat>, k: nat): (r: (seq<Pair>, seq<nat>))
    requires k < |tokens| && forall i :: 0 <= i < |stack| ==> stack[i] < k
    ensures forall i :: 0 <= i < |r.1| ==> r.1[i] < k + 1
  {
    if Opens(tokens[k], void) then (pairs, stack + [k])
    else if Closes(tokens[k], void) && stack != [] && tokens[stack[|stack| - 1]].name == tokens[k].name then
      (pairs + [(stack[|stack| - 1], k)], stack[..|stack| - 1])
    else (pairs, stack)
  }

  /** What a strict stack has paired after `n` tokens, and the start tags it still holds. */
  function MatchTo(tokens: seq<Token>, void: set<string>, n: nat): (r: (seq<Pair>, seq<nat>))
    requires n <= |tokens|
    ensures forall i :: 0 <= i < |r.1| ==> r.1[i] < n
  {
    if n == 0 then ([], [])
    else MatchStep(tokens, void, MatchTo(tokens, void, n - 1).0, MatchTo(tokens, void, n - 1).1, n - 1)
  }

  function StrictPairs(tokens: seq<Token>, void: set<string>): seq<Pair> { MatchTo(tokens, void, |tokens|).0 }

  lemma StepMatches(tokens: seq<Token>, void: set<string>, pairs: seq<Pair>, stack: seq<nat>, n: nat)
    requires n < |tokens| && Matched(tokens, void, pairs, stack, n)
    ensures var (more, rest) := MatchStep(tokens, void, pairs, stack, n); Matched(tokens, void, more, rest, n + 1)
  {
    if Closes(tokens[n], void) && stack != [] && tokens[stack[|stack| - 1]].name == tokens[n].name {
      ClosePair(tokens, void, pairs, stack, n);
    } else {
      KeepOpen(tokens, void, pairs, stack, n);
    }
  }

  /** The stack computes the strict matching. */
  lemma {:induction false} MatchToMatches(tokens: seq<Token>, void: set<string>, n: nat)
    requires n <= |tokens|
    ensures Matched(tokens, void, MatchTo(tokens, void, n).0, MatchTo(tokens, void, n).1, n)
  {
    if n > 0 {
      MatchToMatches(tokens, void, n - 1);
      var before := MatchTo(tokens, void, n - 1);
      StepMatches(tokens, void, before.0, before.1, n - 1);
      assert MatchTo(tokens, void, n) == MatchStep(tokens, void, before.0, before.1, n - 1);
    }
  }

  lemma PairsMatch(tokens: seq<Token>, void: set<string>)
    ensures StrictMatching(tokens, void, StrictPairs(tokens, void))
    ensures WellNested(StrictPairs(tokens, void)) && Below(StrictPairs(tokens, void), |tokens|)
  {
    MatchToMatches(tokens, void, |tokens|);
  }

  /** Pairs (open, close) of inline tags, matched by a strict stack; the rest stay unpaired. */
  method MatchedTagPairs(tokens: seq<Token>, void: set<string>) returns (pairs: seq<Pair>)
    ensures pairs == StrictPairs(tokens, void)
    ensures StrictMatching(tokens, void, pairs)
    ensures WellNested(pairs)
    ensures Below(pairs, |tokens|)
  {
    var stack: seq<nat> := [];
    pairs := [];
    for index := 0 to |tokens|
      invariant (pairs, stack) == MatchTo(tokens, void, index)
    {
      var token := tokens[index];
      if token.kind != Tag || token.name in void {
        continue;
      }
      if !token.closing {
        stack := stack + [index];
      } else if stack != [] && tokens[stack[|stack| - 1]].name == token.name {
        pairs := pairs + [(stack[|stack| - 1], index)];
        stack := stack[..|stack| - 1];
      }
    }
    PairsMatch(tokens, void);
  }

  /** The innermost open start tag is the top of the stack. */
  lemma Top(tokens: seq<Token>, void: set<string>, pairs: seq<Pair>, stack: seq<nat>, n: nat)
    requires Matched(tokens, void, pairs, stack, n) && stack != []
    ensures Innermost(tokens, void, pairs, stack[|stack| - 1], n)
  {
    assert stack[|stack| - 1] in stack;
    assert forall m: nat :: StillOpen(tokens, void, pairs, m, n) ==> m in stack;
  }

  /** An unpaired token: the matching of the earlier tokens stands, and a start tag is now open. */
  lemma KeepOpen(tokens: seq<Token>, void: set<string>, pairs: seq<Pair>, stack: seq<nat>, n: nat)
    requires Matched(tokens, void, pairs, stack, n) && n < |tokens|
    requires Closes(tokens[n], void) && stack != [] ==> tokens[stack[|stack| - 1]].name != tokens[n].name
    ensures Matched(tokens, void, pairs, if Opens(tokens[n], void) then stack + [n] else stack, n + 1)
  {
    var next := if Opens(tokens[n], void) then stack + [n] else stack;
    forall i: nat ensures i in next <==> StillOpen(tokens, void, pairs, i, n + 1) {
      assert i in next <==> i in stack || (i == n && Opens(tokens[n], void));
      assert i in stack <==> StillOpen(tokens, void, pairs, i, n);
    }
    forall a, b | 0 <= a < b < |next| ensures next[a] < next[b] {
      assert next[a] in stack;
      assert StillOpen(tokens, void, pairs, next[a], n);
    }
    assert MatchedUpTo(tokens, void, pairs, n + 1) by {
      forall i: nat | Closes(tokens[n], void) && Innermost(tokens, void, pairs, i, n)
        ensures tokens[i].name != tokens[n].name
      {
        assert i in stack;
        Top(tokens, void, pairs, stack, n);
        assert i == stack[|stack| - 1];
      }
      assert !exists i: nat :: (i, n) in pairs;
    }
  }

  /** An end tag that agrees with the innermost open start tag closes it. */
  lemma ClosePair(tokens: seq<Token>, void: set<string>, pairs: seq<Pair>, stack: seq<nat>, n: nat)
    requires Matched(tokens, void, pairs, stack, n) && n < |tokens| && stack != []
    requires Closes(tokens[n], void)
    requires tokens[stack[|stack| - 1]].name == tokens[n].name
    ensures Matched(tokens, void, pairs + [(stack[|stack| - 1], n)], stack[..|stack| - 1], n + 1)
  {
    var top := stack[|stack| - 1];
    Top(tokens, void, pairs, stack, n);
    CloseKeepsNesting(pairs, stack, n);
    ClosedIsGone(tokens, void, pairs, stack, n);
    CloseExtendsMatching(tokens, void, pairs, top, n);
  }

  lemma ClosedIsGone(tokens: seq<Token>, void: set<string>, pairs: seq<Pair>, stack: seq<nat>, n: nat)
    requires n < |tokens| && stack != [] && Closes(tokens[n], void) && Below(pairs, n)
    requires forall a, b :: 0 <= a < b < |stack| ==> stack[a] < stack[b]
    requires Lists(tokens, void, pairs, stack, n)
    ensures Lists(tokens, void, pairs + [(stack[|stack| - 1], n)], stack[..|stack| - 1], n + 1)
  {
    var top, rest := stack[|stack| - 1], stack[..|stack| - 1];
    var after := pairs + [(top, n)];
    assert stack == rest + [top];
    assert forall p :: p in after <==> p in pairs || p == (top, n);
    forall i: nat ensures i in rest <==> StillOpen(tokens, void, after, i, n + 1) {
      assert i in stack <==> i in rest || i == top;
      assert i in stack <==> StillOpen(tokens, void, pairs, i, n);
      assert (top, n) in after;
    }
  }

  lemma CloseExtendsMatching(tokens: seq<Token>, void: set<string>, pairs: seq<Pair>, top: nat, n: nat)
    requires n < |tokens| && Closes(tokens[n], void) && Below(pairs, n)
    requires MatchedUpTo(tokens, void, pairs, n)
    requires Innermost(tokens, void, pairs, top, n) && tokens[top].name == tokens[n].name
    ensures MatchedUpTo(tokens, void, pairs + [(top, n)], n + 1)
  {
    var after := pairs + [(top, n)];
    EarlierUnchanged(tokens, void, pairs, top, n);
    assert forall p :: p in after <==> p in pairs || p == (top, n);
    forall i: nat, j: nat ensures (i, j) in after <==>
      && j < n + 1 && Closes(tokens[j], void)
      && Innermost(tokens, void, after, i, j) && tokens[i].name == tokens[j].name
    {
      if j <= n {
        assert Innermost(tokens, void, after, i, j) <==> Innermost(tokens, void, pairs, i, j);
      }
      if j == n && Innermost(tokens, void, pairs, i, n) {
        assert StillOpen(tokens, void, pairs, i, n) && StillOpen(tokens, void, pairs, top, n);
        assert i == top;
      }
    }
  }

  lemma CloseKeepsNesting(pairs: seq<Pair>, stack: seq<nat>, n: nat)
    requires WellNested(pairs) && Below(pairs, n) && stack != [] && Outside(stack, pairs)
    requires forall a, b :: 0 <= a < b < |stack| ==> stack[a] < stack[b]
    requires forall a :: 0 <= a < |stack| ==> stack[a] < n
    ensures WellNested(pairs + [(stack[|stack| - 1], n)]) && Below(pairs + [(stack[|stack| - 1], n)], n + 1)
    ensures Outside(stack[..|stack| - 1], pairs + [(stack[|stack| - 1], n)])
  {
    var top, rest := stack[|stack| - 1], stack[..|stack| - 1];
    var after := pairs + [(top, n)];
    assert top in stack;
    assert forall p :: p in after <==> p in pairs || p == (top, n);
    forall a, b | 0 <= a < b < |after| ensures after[a].1 < after[b].1 && after[a].0 != after[b].0 {
      assert after[a] in pairs;
    }
    forall s, p | s in rest && p in after ensures !(p.0 <= s <= p.1) {
      var a :| 0 <= a < |rest| && rest[a] == s;
      assert stack[a] < stack[|stack| - 1] && s in stack;
    }
  }

  /** Closing `top` at `n` does not change what was open at any position up to `n`. */
  lemma EarlierUnchanged(tokens: seq<Token>, void: set<string>, pairs: seq<Pair>, top: nat, n: nat)
    ensures forall i: nat, k: nat :: k <= n ==>
      (StillOpen(tokens, void, pairs, i, k) <==> StillOpen(tokens, void, pairs + [(top, n)], i, k))
    ensures forall i: nat, k: nat :: k <= n ==>
      (Innermost(tokens, void, pairs, i, k) <==> Innermost(tokens, void, pairs + [(top, n)], i, k))
  {
    var after := pairs + [(top, n)];
    assert forall p :: p in after <==> p in pairs || p == (top, n);
    forall i: nat, k: nat | k <= n
      ensures StillOpen(tokens, void, pairs, i, k) <==> StillOpen(tokens, void, after, i, k) {}
  }

  /** Strict matching leaves no choice: it fixes which tags are paired. */
  lemma {:induction false} StrictMatchingUnique(tokens: seq<Token>, void: set<string>, ps: seq<Pair>, qs: seq<Pair>, n: nat)
    requires StrictMatching(tokens, void, ps) && StrictMatching(tokens, void, qs)
    ensures forall i: nat, j: nat :: j < n ==> ((i, j) in ps <==> (i, j) in qs)
  {
    if n > 0 {
      var j := n - 1;
      StrictMatchingUnique(tokens, void, ps, qs, j);
      forall i: nat, k: nat | k <= j
        ensures StillOpen(tokens, void, ps, i, k) <==> StillOpen(tokens, void, qs, i, k)
      {
        if StillOpen(tokens, void, ps, i, k) { SameOpen(tokens, void, ps, qs, i, k, j); }
        if StillOpen(tokens, void, qs, i, k) { SameOpen(tokens, void, qs, ps, i, k, j); }
      }
      assert forall i: nat :: Innermost(tokens, void, ps, i, j) <==> Innermost(tokens, void, qs, i, j);
    }
  }

  lemma SameOpen(tokens: seq<Token>, void: set<string>, ps: seq<Pair>, qs: seq<Pair>, i: nat, k: nat, j: nat)
    requires forall i: nat, m: nat :: m < j ==> ((i, m) in ps <==> (i, m) in qs)
    requires k <= j && StillOpen(tokens, void, ps, i, k)
    ensures StillOpen(tokens, void, qs, i, k)
  {
    forall q | q in qs && q.0 == i ensures k <= q.1 {
      assert q.1 < j ==> (q.0, q.1) in ps;
    }
  }
}
