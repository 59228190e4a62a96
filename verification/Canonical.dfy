/** Canonical serialization: from values to JSON trees to text, the same whatever order mappings and
    sets are enumerated in. */
module Canonical {
  import opened Common
  import opened Sorting
  import opened JsonText

  /** A value, with models and enumerations already taken to what they hold. Dates, decimals, UUIDs and
      bytes are their formatted text; a float that is not finite, a key that is not a string, and
      anything else without a canonical form are marked as such. Mappings and sets come in the order
      in which they are enumerated. */
  datatype Value =
    | VNull
    | VBool(b: bool)
    | VInt(i: int)
    | VFloat(repr: Option<string>)
    | VStr(s: string)
    | VFormatted(text: Option<string>)
    | VMap(entries: seq<Entry>)
    | VSet(elements: seq<Value>)
    | VList(items: seq<Value>)

  datatype Entry = Entry(key: Option<string>, value: Value)

  datatype EncodingError = EncodingError

  type Nfc = string -> string

  type Tree = Result<Json, EncodingError>

  // ---------------------------------------------------------------- sorting what a set enumerates

  ghost function SortText(t: Json): string { Print(t, " ") }

  lemma Front<T>(s: seq<T>)
    requires s != []
    ensures s == [s[0]] + s[1..] && multiset(s) == multiset{s[0]} + multiset(s[1..])
  {
    assert s == [s[0]] + s[1..];
  }

  ghost function Insert(sorted: seq<Json>, t: Json): (r: seq<Json>)
    ensures multiset(r) == multiset(sorted) + multiset{t}
  {
    if sorted == [] then [t]
    else if LexLeq(SortText(t), SortText(sorted[0])) then [t] + sorted
    else
      Front(sorted);
      [sorted[0]] + Insert(sorted[1..], t)
  }

  /** Insertion sort by the spaced text of each tree. */
  ghost function SortTrees(trees: seq<Json>): (r: seq<Json>)
    ensures multiset(r) == multiset(trees)
  {
    if trees == [] then []
    else
      assert trees == trees[..|trees| - 1] + [trees[|trees| - 1]];
      Insert(SortTrees(trees[..|trees| - 1]), trees[|trees| - 1])
  }

  ghost predicate InOrder(trees: seq<Json>) {
    forall i, j :: 0 <= i < j < |trees| ==> LexLeq(SortText(trees[i]), SortText(trees[j]))
  }

  lemma {:induction false} InsertKeepsOrder(sorted: seq<Json>, t: Json)
    requires InOrder(sorted)
    ensures InOrder(Insert(sorted, t))
  {
    if sorted != [] && !LexLeq(SortText(t), SortText(sorted[0])) {
      LexTotal(SortText(t), SortText(sorted[0]));
      InsertKeepsOrder(sorted[1..], t);
      var rest := Insert(sorted[1..], t);
      forall i | 0 <= i < |rest| ensures LexLeq(SortText(sorted[0]), SortText(rest[i])) {
        assert rest[i] in multiset(rest);
        assert rest[i] == t || rest[i] in sorted[1..];
      }
    } else if sorted != [] {
      forall i | 0 <= i < |sorted| ensures LexLeq(SortText(t), SortText(sorted[i])) {
        if i > 0 { LexTransitive(SortText(t), SortText(sorted[0]), SortText(sorted[i])); }
      }
    }
  }

  lemma {:induction false} SortTreesSorts(trees: seq<Json>)
    ensures InOrder(SortTrees(trees))
  {
    if trees != [] {
      SortTreesSorts(trees[..|trees| - 1]);
      InsertKeepsOrder(SortTrees(trees[..|trees| - 1]), trees[|trees| - 1]);
    }
  }

  /** Because distinct trees have distinct texts, the order leaves no room for ties. */
  lemma {:induction false} OneOrder(a: seq<Json>, b: seq<Json>)
    requires InOrder(a) && InOrder(b) && multiset(a) == multiset(b)
    requires forall t :: t in a ==> Printable(t)
    ensures a == b
  {
    assert |a| == |multiset(a)| == |multiset(b)| == |b|;
    if a != [] {
      SameFirst(a, b);
      Front(a);
      Front(b);
      SameRest(multiset(a[1..]), multiset(b[1..]), a[0]);
      OneOrder(a[1..], b[1..]);
    }
  }

  lemma SameFirst(a: seq<Json>, b: seq<Json>)
    requires InOrder(a) && InOrder(b) && multiset(a) == multiset(b) && a != [] && b != []
    requires forall t :: t in a ==> Printable(t)
    ensures a[0] == b[0]
  {
    assert a[0] in multiset(b) && b[0] in multiset(a);
    FirstComesFirst(a, b[0]);
    FirstComesFirst(b, a[0]);
    LexTotal(SortText(a[0]), SortText(b[0]));
    if a[0] != b[0] { PrintIsInjective(a[0], b[0], " "); }
  }

  lemma FirstComesFirst(a: seq<Json>, x: Json)
    requires InOrder(a) && x in a
    ensures x == a[0] || LexLeq(SortText(a[0]), SortText(x))
  {
    var j :| 0 <= j < |a| && a[j] == x;
  }

  lemma SameRest<T>(a: multiset<T>, b: multiset<T>, x: T)
    requires multiset{x} + a == multiset{x} + b
    ensures a == b
  {
    assert multiset{x} + a - multiset{x} == a && multiset{x} + b - multiset{x} == b;
  }

  // ---------------------------------------------------------------- from values to trees

  ghost function ToTree(nfc: Nfc, v: Value): Tree
    decreases v, 1, 0
  {
    match v
    case VNull => Ok(JNull)
    case VBool(b) => Ok(JBool(b))
    case VInt(i) => Ok(JInt(i))
    case VFloat(repr) => if repr.None? then Err(EncodingError) else Ok(JFloat(repr.value))
    case VStr(s) => Ok(JStr(nfc(s)))
    case VFormatted(text) => if text.None? then Err(EncodingError) else Ok(JStr(text.value))
    case VMap(entries) =>
      var fields := ToFields(nfc, v, |entries|);
      if fields.Err? then Err(EncodingError) else Ok(JObj(fields.value))
    case VSet(elements) =>
      var trees := ToTrees(nfc, v, |elements|);
      if trees.Err? then Err(EncodingError) else Ok(JArr(SortTrees(trees.value)))
    case VList(items) =>
      var trees := ToTrees(nfc, v, |items|);
      if trees.Err? then Err(EncodingError) else Ok(JArr(trees.value))
  }

  function Members(v: Value): seq<Value>
    requires v.VSet? || v.VList?
  {
    if v.VSet? then v.elements else v.items
  }

  /** The first `n` members of a list or set. */
  ghost function ToTrees(nfc: Nfc, v: Value, n: nat): Result<seq<Json>, EncodingError>
    requires (v.VSet? || v.VList?) && n <= |Members(v)|
    decreases v, 0, n
  {
    if n == 0 then Ok([])
    else
      var before := ToTrees(nfc, v, n - 1);
      var t := ToTree(nfc, Members(v)[n - 1]);
      if before.Err? || t.Err? then Err(EncodingError) else Ok(before.value + [t.value])
  }

  /** The first `n` entries of a mapping; two keys that normalize to the same are an error. */
  ghost function ToFields(nfc: Nfc, v: Value, n: nat): Result<map<string, Json>, EncodingError>
    requires v.VMap? && n <= |v.entries|
    decreases v, 0, n
  {
    if n == 0 then Ok(map[])
    else
      var before := ToFields(nfc, v, n - 1);
      var e := v.entries[n - 1];
      if before.Err? || e.key.None? || nfc(e.key.value) in before.value then Err(EncodingError)
      else
        var t := ToTree(nfc, e.value);
        if t.Err? then Err(EncodingError) else Ok(before.value[nfc(e.key.value) := t.value])
  }

  ghost function CanonicalText(nfc: Nfc, v: Value): Result<string, EncodingError> {
    var t := ToTree(nfc, v);
    if t.Err? then Err(EncodingError) else Ok(Print(t.value, ""))
  }

  // ---------------------------------------------------------------- what makes an encoding fail

  /** Floats come as Python writes them. */
  predicate WellFormed(v: Value)
    decreases v
  {
    match v
    case VFloat(repr) => repr.Some? ==> FloatRepr(repr.value)
    case VMap(entries) => forall i :: 0 <= i < |entries| ==> WellFormed(entries[i].value)
    case VSet(elements) => forall i :: 0 <= i < |elements| ==> WellFormed(elements[i])
    case VList(items) => forall i :: 0 <= i < |items| ==> WellFormed(items[i])
    case _ => true
  }

  predicate KeysAreStrings(es: seq<Entry>) { forall i :: 0 <= i < |es| ==> es[i].key.Some? }

  predicate KeysStayDistinct(nfc: Nfc, es: seq<Entry>)
    requires KeysAreStrings(es)
  {
    forall i, j :: 0 <= i < j < |es| ==> nfc(es[i].key.value) != nfc(es[j].key.value)
  }

  ghost predicate FieldsOf(nfc: Nfc, es: seq<Entry>, m: map<string, Json>)
    requires KeysAreStrings(es)
  {
    && (forall k :: k in m <==> exists i :: 0 <= i < |es| && nfc(es[i].key.value) == k)
    && (forall i :: 0 <= i < |es| ==> nfc(es[i].key.value) in m && ToTree(nfc, es[i].value) == Ok(m[nfc(es[i].key.value)]))
  }

  ghost predicate Encodable(nfc: Nfc, es: seq<Entry>) {
    KeysAreStrings(es) && KeysStayDistinct(nfc, es) && forall i :: 0 <= i < |es| ==> ToTree(nfc, es[i].value).Ok?
  }

  ghost predicate FitsAfter(nfc: Nfc, m: map<string, Json>, last: Entry) {
    last.key.Some? && nfc(last.key.value) !in m && ToTree(nfc, last.value).Ok?
  }

  lemma OneMoreEntry(nfc: Nfc, init: seq<Entry>, last: Entry, m: map<string, Json>)
    requires Encodable(nfc, init) && FieldsOf(nfc, init, m)
    ensures Encodable(nfc, init + [last]) <==> FitsAfter(nfc, m, last)
    ensures FitsAfter(nfc, m, last) ==>
      FieldsOf(nfc, init + [last], m[nfc(last.key.value) := ToTree(nfc, last.value).value])
  {
    var es := init + [last];
    assert es[|init|] == last && forall i :: 0 <= i < |init| ==> es[i] == init[i];
    if FitsAfter(nfc, m, last) {
      assert KeysAreStrings(es) && KeysStayDistinct(nfc, es);
      var more := m[nfc(last.key.value) := ToTree(nfc, last.value).value];
      forall k ensures k in more <==> exists i :: 0 <= i < |es| && nfc(es[i].key.value) == k {
        if k in m {
          var i :| 0 <= i < |init| && nfc(init[i].key.value) == k;
          assert nfc(es[i].key.value) == k;
        }
        if k == nfc(last.key.value) { assert nfc(es[|init|].key.value) == k; }
      }
    }
  }

  /** A mapping is encoded exactly when its keys are strings that stay distinct under normalization and
      its values can be encoded, and then it has exactly its entries. */
  lemma {:induction false} FieldsExactlyWhen(nfc: Nfc, v: Value, n: nat)
    requires v.VMap? && n <= |v.entries|
    ensures ToFields(nfc, v, n).Ok? <==> Encodable(nfc, v.entries[..n])
    ensures ToFields(nfc, v, n).Ok? ==> FieldsOf(nfc, v.entries[..n], ToFields(nfc, v, n).value)
  {
    if n > 0 {
      FieldsExactlyWhen(nfc, v, n - 1);
      var init, last := v.entries[..n - 1], v.entries[n - 1];
      assert v.entries[..n] == init + [last];
      if Encodable(nfc, init) {
        OneMoreEntry(nfc, init, last, ToFields(nfc, v, n - 1).value);
      } else {
        FewerEntries(nfc, init, last);
      }
    }
  }

  lemma FewerEntries(nfc: Nfc, init: seq<Entry>, last: Entry)
    ensures Encodable(nfc, init + [last]) ==> Encodable(nfc, init)
  {
    assert forall i :: 0 <= i < |init| ==> (init + [last])[i] == init[i];
  }

  // ---------------------------------------------------------------- the order of enumeration does not matter

  /** Two entries of a permuted list are two entries of the list. */
  lemma {:induction false} PairOf<T>(s: seq<T>, x: T, y: T) returns (i: nat, j: nat)
    requires multiset{x, y} <= multiset(s)
    ensures i < |s| && j < |s| && i != j && s[i] == x && s[j] == y
  {
    var init, last := s[..|s| - 1], s[|s| - 1];
    assert s == init + [last];
    if multiset{x, y} <= multiset(init) {
      i, j := PairOf(init, x, y);
    } else if last == x {
      i := |s| - 1;
      assert y in multiset(init);
      j :| 0 <= j < |init| && init[j] == y;
    } else {
      assert last == y && x in multiset(init);
      j := |s| - 1;
      i :| 0 <= i < |init| && init[i] == x;
    }
  }

  lemma PairsStay<T>(s: seq<T>, i: nat, j: nat)
    requires i < j < |s|
    ensures multiset{s[i], s[j]} <= multiset(s)
  {
    assert s == s[..i] + ([s[i]] + (s[i + 1..j] + ([s[j]] + s[j + 1..])));
  }

  lemma EncodableIgnoresOrder(nfc: Nfc, a: seq<Entry>, b: seq<Entry>)
    requires multiset(a) == multiset(b) && Encodable(nfc, a)
    ensures Encodable(nfc, b)
  {
    forall i | 0 <= i < |b| ensures b[i].key.Some? && ToTree(nfc, b[i].value).Ok? {
      assert b[i] in multiset(a);
    }
    forall i, j | 0 <= i < j < |b| ensures nfc(b[i].key.value) != nfc(b[j].key.value) {
      PairsStay(b, i, j);
      var k, l := PairOf(a, b[i], b[j]);
      assert if k < l then nfc(a[k].key.value) != nfc(a[l].key.value) else nfc(a[l].key.value) != nfc(a[k].key.value);
    }
  }

  /** A mapping's encoding does not depend on the order of its entries. */
  lemma MappingOrderIrrelevant(nfc: Nfc, a: seq<Entry>, b: seq<Entry>)
    requires multiset(a) == multiset(b)
    ensures ToTree(nfc, VMap(a)) == ToTree(nfc, VMap(b))
  {
    assert a[..|a|] == a && b[..|b|] == b;
    FieldsExactlyWhen(nfc, VMap(a), |a|);
    FieldsExactlyWhen(nfc, VMap(b), |b|);
    if Encodable(nfc, a) { EncodableIgnoresOrder(nfc, a, b); }
    if Encodable(nfc, b) { EncodableIgnoresOrder(nfc, b, a); }
    if Encodable(nfc, a) {
      SameFields(nfc, a, b, ToFields(nfc, VMap(a), |a|).value, ToFields(nfc, VMap(b), |b|).value);
    }
  }

  lemma SameFields(nfc: Nfc, a: seq<Entry>, b: seq<Entry>, m: map<string, Json>, n: map<string, Json>)
    requires multiset(a) == multiset(b) && KeysAreStrings(a) && KeysAreStrings(b)
    requires FieldsOf(nfc, a, m) && FieldsOf(nfc, b, n)
    ensures m == n
  {
    forall k | k in m ensures k in n && n[k] == m[k] {
      var i :| 0 <= i < |a| && nfc(a[i].key.value) == k;
      assert a[i] in multiset(b);
      var j :| 0 <= j < |b| && b[j] == a[i];
    }
    forall k | k in n ensures k in m {
      var i :| 0 <= i < |b| && nfc(b[i].key.value) == k;
      assert b[i] in multiset(a);
      var j :| 0 <= j < |a| && a[j] == b[i];
    }
  }

  lemma {:induction false} TreesOfPrefix(nfc: Nfc, v: Value, n: nat)
    requires (v.VSet? || v.VList?) && n <= |Members(v)|
    ensures ToTrees(nfc, v, n).Ok? <==> forall i :: 0 <= i < n ==> ToTree(nfc, Members(v)[i]).Ok?
    ensures ToTrees(nfc, v, n).Ok? ==> TreesOf(nfc, Members(v), n, ToTrees(nfc, v, n).value)
  {
    if n > 0 {
      TreesOfPrefix(nfc, v, n - 1);
      var before, last := ToTrees(nfc, v, n - 1), ToTree(nfc, Members(v)[n - 1]);
      assert ToTrees(nfc, v, n).Ok? <==> before.Ok? && last.Ok?;
      if before.Ok? && last.Ok? {
        assert ToTrees(nfc, v, n).value == before.value + [last.value];
      }
    }
  }

  ghost predicate TreesOf(nfc: Nfc, vs: seq<Value>, n: nat, trees: seq<Json>)
    requires n <= |vs|
  {
    |trees| == n && forall i :: 0 <= i < n ==> ToTree(nfc, vs[i]) == Ok(trees[i])
  }

  lemma Without<T>(s: seq<T>, i: nat)
    requires i < |s|
    ensures multiset(s) == multiset{s[i]} + multiset(s[..i] + s[i + 1..])
  {
    assert s == s[..i] + ([s[i]] + s[i + 1..]);
  }

  lemma {:induction false} SameTrees(nfc: Nfc, a: seq<Value>, b: seq<Value>, s: seq<Json>, t: seq<Json>)
    requires multiset(a) == multiset(b) && TreesOf(nfc, a, |a|, s) && TreesOf(nfc, b, |b|, t)
    ensures multiset(s) == multiset(t)
    decreases |a|
  {
    assert |a| == |multiset(a)| == |multiset(b)| == |b|;
    if a != [] {
      assert a[0] in multiset(b);
      var i :| 0 <= i < |b| && b[i] == a[0];
      assert ToTree(nfc, a[0]) == Ok(s[0]) && ToTree(nfc, b[i]) == Ok(t[i]);
      TailsAgree(a, b, i);
      TreesWithout(nfc, b, t, i);
      SameTrees(nfc, a[1..], b[..i] + b[i + 1..], s[1..], t[..i] + t[i + 1..]);
      TailsAgree(s, t, i);
    }
  }

  lemma TailsAgree<T>(s: seq<T>, t: seq<T>, i: nat)
    requires s != [] && i < |t| && s[0] == t[i]
    ensures multiset(s) == multiset(t) <==> multiset(s[1..]) == multiset(t[..i] + t[i + 1..])
  {
    Front(s);
    Without(t, i);
    if multiset(s) == multiset(t) { SameRest(multiset(s[1..]), multiset(t[..i] + t[i + 1..]), s[0]); }
  }

  lemma TreesWithout(nfc: Nfc, b: seq<Value>, t: seq<Json>, i: nat)
    requires i < |b| && TreesOf(nfc, b, |b|, t)
    ensures TreesOf(nfc, b[..i] + b[i + 1..], |b| - 1, t[..i] + t[i + 1..])
  {
  }

  lemma {:induction false} TreesArePrintable(nfc: Nfc, v: Value)
    requires WellFormed(v) && ToTree(nfc, v).Ok?
    ensures Printable(ToTree(nfc, v).value)
    decreases v
  {
    match v
    case VMap(entries) =>
      assert entries[..|entries|] == entries;
      FieldsExactlyWhen(nfc, v, |entries|);
      var m := ToFields(nfc, v, |entries|).value;
      forall k | k in m ensures Printable(m[k]) {
        var i :| 0 <= i < |entries| && nfc(entries[i].key.value) == k;
        TreesArePrintable(nfc, entries[i].value);
      }
    case VSet(elements) => MembersArePrintable(nfc, v);
    case VList(items) => MembersArePrintable(nfc, v);
    case _ =>
  }

  lemma {:induction false} MembersArePrintable(nfc: Nfc, v: Value)
    requires (v.VSet? || v.VList?) && WellFormed(v) && ToTrees(nfc, v, |Members(v)|).Ok?
    ensures forall t :: t in ToTrees(nfc, v, |Members(v)|).value ==> Printable(t)
    ensures forall t :: t in SortTrees(ToTrees(nfc, v, |Members(v)|).value) ==> Printable(t)
    decreases v, 0
  {
    var vs, trees := Members(v), ToTrees(nfc, v, |Members(v)|).value;
    assert vs[..|vs|] == vs;
    TreesOfPrefix(nfc, v, |vs|);
    forall t | t in trees ensures Printable(t) {
      var i :| 0 <= i < |trees| && trees[i] == t;
      TreesArePrintable(nfc, vs[i]);
    }
    forall t | t in SortTrees(trees) ensures Printable(t) {
      assert t in multiset(SortTrees(trees));
    }
  }

  lemma AllEncodable(nfc: Nfc, a: seq<Value>, b: seq<Value>)
    requires multiset(a) == multiset(b) && forall i :: 0 <= i < |a| ==> ToTree(nfc, a[i]).Ok?
    ensures forall i :: 0 <= i < |b| ==> ToTree(nfc, b[i]).Ok?
  {
    forall i | 0 <= i < |b| ensures ToTree(nfc, b[i]).Ok? {
      assert b[i] in multiset(a);
      var j :| 0 <= j < |a| && a[j] == b[i];
    }
  }

  lemma SameSorted(nfc: Nfc, a: seq<Value>, b: seq<Value>, s: seq<Json>, t: seq<Json>)
    requires multiset(a) == multiset(b) && TreesOf(nfc, a, |a|, s) && TreesOf(nfc, b, |b|, t)
    requires forall x :: x in SortTrees(s) ==> Printable(x)
    ensures SortTrees(s) == SortTrees(t)
  {
    SameTrees(nfc, a, b, s, t);
    SortTreesSorts(s);
    SortTreesSorts(t);
    OneOrder(SortTrees(s), SortTrees(t));
  }

  /** A set's encoding does not depend on the order it is enumerated in. */
  lemma SetOrderIrrelevant(nfc: Nfc, a: seq<Value>, b: seq<Value>)
    requires multiset(a) == multiset(b) && WellFormed(VSet(a))
    ensures ToTree(nfc, VSet(a)) == ToTree(nfc, VSet(b))
  {
    TreesOfPrefix(nfc, VSet(a), |a|);
    TreesOfPrefix(nfc, VSet(b), |b|);
    if ToTrees(nfc, VSet(a), |a|).Ok? {
      AllEncodable(nfc, a, b);
      MembersArePrintable(nfc, VSet(a));
      SameSorted(nfc, a, b, ToTrees(nfc, VSet(a), |a|).value, ToTrees(nfc, VSet(b), |b|).value);
    } else if ToTrees(nfc, VSet(b), |b|).Ok? {
      AllEncodable(nfc, b, a);
    }
  }

  // ---------------------------------------------------------------- at every depth

  /** The same value with its mappings and sets enumerated in other orders, at any depth. */
  ghost predicate Reordered(v: Value, w: Value)
    decreases w, 1
  {
    match w
    case VMap(entries) => v.VMap? && exists c: seq<Entry> :: multiset(c) == multiset(v.entries) && MatchesEntries(c, w)
    case VSet(elements) => v.VSet? && exists c: seq<Value> :: multiset(c) == multiset(v.elements) && MatchesMembers(c, w)
    case VList(items) => v.VList? && MatchesMembers(v.items, w)
    case _ => v == w
  }

  ghost predicate MatchesEntries(c: seq<Entry>, w: Value)
    requires w.VMap?
    decreases w, 0
  {
    |c| == |w.entries| && forall i :: 0 <= i < |c| ==> c[i].key == w.entries[i].key && Reordered(c[i].value, w.entries[i].value)
  }

  ghost predicate MatchesMembers(c: seq<Value>, w: Value)
    requires w.VSet? || w.VList?
    decreases w, 0
  {
    |c| == |Members(w)| && forall i :: 0 <= i < |c| ==> Reordered(c[i], Members(w)[i])
  }

  lemma {:induction false} SameEntries(nfc: Nfc, v: Value, w: Value, n: nat)
    requires v.VMap? && w.VMap? && |v.entries| == |w.entries| && n <= |v.entries|
    requires forall i :: 0 <= i < n ==>
      v.entries[i].key == w.entries[i].key && ToTree(nfc, v.entries[i].value) == ToTree(nfc, w.entries[i].value)
    ensures ToFields(nfc, v, n) == ToFields(nfc, w, n)
  {
    if n > 0 { SameEntries(nfc, v, w, n - 1); }
  }

  lemma {:induction false} SameMembers(nfc: Nfc, v: Value, w: Value, n: nat)
    requires (v.VSet? && w.VSet?) || (v.VList? && w.VList?)
    requires |Members(v)| == |Members(w)| && n <= |Members(v)|
    requires forall i :: 0 <= i < n ==> ToTree(nfc, Members(v)[i]) == ToTree(nfc, Members(w)[i])
    ensures ToTrees(nfc, v, n) == ToTrees(nfc, w, n)
  {
    if n > 0 { SameMembers(nfc, v, w, n - 1); }
  }

  lemma {:induction false} SameTree(nfc: Nfc, v: Value, w: Value)
    requires Reordered(v, w) && WellFormed(v)
    ensures ToTree(nfc, v) == ToTree(nfc, w)
    decreases w, 1
  {
    match w
    case VMap(entries) =>
      var c: seq<Entry> :| multiset(c) == multiset(v.entries) && MatchesEntries(c, w);
      MappingOrderIrrelevant(nfc, v.entries, c);
      forall i | 0 <= i < |c| ensures WellFormed(c[i].value) { assert c[i] in multiset(v.entries); }
      SameMapping(nfc, c, w);
    case VSet(elements) =>
      var c: seq<Value> :| multiset(c) == multiset(v.elements) && MatchesMembers(c, w);
      SetOrderIrrelevant(nfc, v.elements, c);
      forall i | 0 <= i < |c| ensures WellFormed(c[i]) { assert c[i] in multiset(v.elements); }
      SameCollection(nfc, VSet(c), w);
    case VList(items) => SameCollection(nfc, v, w);
    case _ =>
  }

  lemma {:induction false} SameMapping(nfc: Nfc, c: seq<Entry>, w: Value)
    requires w.VMap? && MatchesEntries(c, w) && forall i :: 0 <= i < |c| ==> WellFormed(c[i].value)
    ensures ToTree(nfc, VMap(c)) == ToTree(nfc, w)
    decreases w, 0
  {
    forall i | 0 <= i < |c| ensures ToTree(nfc, c[i].value) == ToTree(nfc, w.entries[i].value) {
      SameTree(nfc, c[i].value, w.entries[i].value);
    }
    SameEntries(nfc, VMap(c), w, |c|);
  }

  lemma {:induction false} SameCollection(nfc: Nfc, v: Value, w: Value)
    requires (v.VSet? && w.VSet?) || (v.VList? && w.VList?)
    requires MatchesMembers(Members(v), w) && forall i :: 0 <= i < |Members(v)| ==> WellFormed(Members(v)[i])
    ensures ToTree(nfc, v) == ToTree(nfc, w)
    decreases w, 0
  {
    forall i | 0 <= i < |Members(v)| ensures ToTree(nfc, Members(v)[i]) == ToTree(nfc, Members(w)[i]) {
      SameTree(nfc, Members(v)[i], Members(w)[i]);
    }
    SameMembers(nfc, v, w, |Members(v)|);
  }

  /** The canonical text of a value does not depend on the order in which any mapping or set in it is
      enumerated. */
  lemma EnumerationOrderIrrelevant(nfc: Nfc, v: Value, w: Value)
    requires Reordered(v, w) && WellFormed(v)
    ensures ToTree(nfc, v) == ToTree(nfc, w) && CanonicalText(nfc, v) == CanonicalText(nfc, w)
  {
    SameTree(nfc, v, w);
  }

  /** Values with the same canonical text have the same tree. */
  lemma CanonicalTextIsInjective(nfc: Nfc, v: Value, w: Value)
    requires WellFormed(v) && WellFormed(w) && CanonicalText(nfc, v).Ok? && CanonicalText(nfc, v) == CanonicalText(nfc, w)
    ensures ToTree(nfc, v) == ToTree(nfc, w)
  {
    TreesArePrintable(nfc, v);
    TreesArePrintable(nfc, w);
    PrintIsInjective(ToTree(nfc, v).value, ToTree(nfc, w).value, "");
  }
}
