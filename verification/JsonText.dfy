/** JSON trees as text: the printer with sorted keys, and a decoder that recovers every tree. */
module JsonText {
  import opened Common
  import opened Sorting
  import Placeholders

  /** A JSON tree. A float is its shortest repr, which always has a point or an exponent. */
  datatype Json =
    | JNull
    | JBool(b: bool)
    | JInt(i: int)
    | JFloat(repr: string)
    | JStr(s: string)
    | JArr(items: seq<Json>)
    | JObj(fields: map<string, Json>)

  // ---------------------------------------------------------------- code point order

  predicate LexLeq(a: string, b: string) {
    a == "" || (b != "" && (a[0] < b[0] || (a[0] == b[0] && LexLeq(a[1..], b[1..]))))
  }

  lemma {:induction false} LexTotal(a: string, b: string)
    ensures LexLeq(a, b) || LexLeq(b, a)
    ensures LexLeq(a, b) && LexLeq(b, a) ==> a == b
  {
    if a != "" && b != "" && a[0] == b[0] {
      LexTotal(a[1..], b[1..]);
      assert a == [a[0]] + a[1..] && b == [b[0]] + b[1..];
    }
  }

  lemma {:induction false} LexTransitive(a: string, b: string, c: string)
    requires LexLeq(a, b) && LexLeq(b, c)
    ensures LexLeq(a, c)
  {
    if a != "" && a[0] == b[0] && b[0] == c[0] { LexTransitive(a[1..], b[1..], c[1..]); }
  }

  lemma LexOrders(keys: set<string>)
    ensures Orders(LexLeq, keys)
  {
    forall x, y | x in keys && y in keys
      ensures LexLeq(x, y) || LexLeq(y, x)
      ensures LexLeq(x, y) && LexLeq(y, x) ==> x == y
    {
      LexTotal(x, y);
    }
    forall x, y, z | x in keys && y in keys && z in keys && LexLeq(x, y) && LexLeq(y, z) ensures LexLeq(x, z) {
      LexTransitive(x, y, z);
    }
  }

  // ---------------------------------------------------------------- strings

  function HexDigit(n: nat): char
    requires n < 16
  {
    "0123456789abcdef"[n]
  }

  /** Quote, backslash and control characters are escaped, everything else stands for itself. */
  function Escape(c: char): string {
    if c == '\"' then "\\\"" else if c == '\\' then "\\\\"
    else if c == '\n' then "\\n" else if c == '\r' then "\\r" else if c == '\t' then "\\t"
    else if c as int == 8 then "\\b" else if c as int == 12 then "\\f"
    else if c < ' ' then "\\u00" + [HexDigit(c as int / 16), HexDigit(c as int % 16)]
    else [c]
  }

  function EscapeAll(s: string): string { if s == "" then "" else Escape(s[0]) + EscapeAll(s[1..]) }

  function HexValue(c: char): Option<nat> {
    if '0' <= c <= '9' then Some(c as int - '0' as int)
    else if 'a' <= c <= 'f' then Some(c as int - 'a' as int + 10)
    else None
  }

  /** One character of a string literal, and how much of the text it takes. */
  function ReadChar(text: string): Option<(char, nat)>
    requires text != ""
  {
    if text[0] == '\"' || text[0] < ' ' then None
    else if text[0] != '\\' then Some((text[0], 1))
    else if |text| < 2 then None
    else
      match text[1]
      case '\"' => Some(('\"', 2))
      case '\\' => Some(('\\', 2))
      case 'n' => Some(('\n', 2))
      case 'r' => Some(('\r', 2))
      case 't' => Some(('\t', 2))
      case 'b' => Some((8 as char, 2))
      case 'f' => Some((12 as char, 2))
      case 'u' =>
        if |text| < 6 || text[2..4] != "00" || HexValue(text[4]).None? || HexValue(text[5]).None? then None
        else Some(((HexValue(text[4]).value * 16 + HexValue(text[5]).value) as char, 6))
      case _ => None
  }

  lemma ReadsEscaped(c: char, rest: string)
    ensures ReadChar(Escape(c) + rest) == Some((c, |Escape(c)|))
  {
    var text := Escape(c) + rest;
    if c < ' ' && c != '\n' && c != '\r' && c != '\t' && c as int != 8 && c as int != 12 {
      assert text[2..4] == "00";
      HexRoundTrip(c as int / 16);
      HexRoundTrip(c as int % 16);
      assert c as int / 16 * 16 + c as int % 16 == c as int;
    }
  }

  lemma HexRoundTrip(n: nat)
    requires n < 16
    ensures HexValue(HexDigit(n)) == Some(n)
  {
  }

  /** A string literal after its opening quote. */
  function ReadString(text: string): (r: Option<(string, string)>)
    ensures r.Some? ==> |r.value.1| < |text|
    decreases |text|
  {
    if text == "" then None
    else if text[0] == '\"' then Some(("", text[1..]))
    else
      var c := ReadChar(text);
      if c.None? || c.value.1 == 0 || c.value.1 > |text| then None
      else
        var more := ReadString(text[c.value.1..]);
        if more.None? then None else Some(([c.value.0] + more.value.0, more.value.1))
  }

  lemma {:induction false} ReadsString(s: string, rest: string)
    ensures ReadString(EscapeAll(s) + "\"" + rest) == Some((s, rest))
    decreases |s|
  {
    if s == "" {
      assert EscapeAll(s) + "\"" + rest == "\"" + rest;
    } else {
      var first, tail := Escape(s[0]), EscapeAll(s[1..]) + "\"" + rest;
      assert EscapeAll(s) + "\"" + rest == first + tail;
      ReadsEscaped(s[0], tail);
      assert (first + tail)[|first|..] == tail;
      ReadsString(s[1..], rest);
      assert s == [s[0]] + s[1..];
      EscapeStart(s[0]);
    }
  }

  lemma EscapeStart(c: char)
    ensures Escape(c) != "" && Escape(c)[0] != '\"'
  {
  }

  // ---------------------------------------------------------------- numbers

  predicate NumberChar(c: char) { '0' <= c <= '9' || c == '-' || c == '+' || c == '.' || c == 'e' }

  predicate FloatRepr(text: string) {
    && text != "" && (text[0] == '-' || '0' <= text[0] <= '9')
    && (forall c :: c in text ==> NumberChar(c)) && (exists c :: c in text && (c == '.' || c == 'e'))
  }

  function IntText(i: int): string { if i < 0 then "-" + Placeholders.Decimal(-i) else Placeholders.Decimal(i) }

  function NumberRun(text: string): (n: nat)
    ensures n <= |text| && forall k :: 0 <= k < n ==> NumberChar(text[k])
  {
    if text == "" || !NumberChar(text[0]) then 0 else 1 + NumberRun(text[1..])
  }

  lemma {:induction false} NumberRunStops(run: string, rest: string)
    requires (forall c :: c in run ==> NumberChar(c)) && (rest == "" || !NumberChar(rest[0]))
    ensures NumberRun(run + rest) == |run|
  {
    if run == "" {
      assert run + rest == rest;
    } else {
      assert (run + rest)[1..] == run[1..] + rest;
      NumberRunStops(run[1..], rest);
    }
  }

  function NumberOf(run: string): Option<Json> {
    if FloatRepr(run) then Some(JFloat(run))
    else if run != "" && (forall c :: c in run ==> Placeholders.Digit(c)) then Some(JInt(Placeholders.Number(run)))
    else if |run| > 1 && run[0] == '-' && (forall c :: c in run[1..] ==> Placeholders.Digit(c))
    then Some(JInt(0 - Placeholders.Number(run[1..])))
    else None
  }

  lemma ReadsInt(i: int)
    ensures NumberOf(IntText(i)) == Some(JInt(i))
    ensures forall c :: c in IntText(i) ==> NumberChar(c)
    ensures IntText(i)[0] == '-' || '0' <= IntText(i)[0] <= '9'
  {
    if i < 0 {
      Placeholders.NumberOfDecimal(-i);
      assert IntText(i)[1..] == Placeholders.Decimal(-i);
      assert IntText(i)[0] == '-' && IntText(i)[0] in IntText(i);
      assert forall c :: c in IntText(i) ==> c == '-' || Placeholders.Digit(c);
    } else {
      Placeholders.NumberOfDecimal(i);
      assert IntText(i)[0] in Placeholders.Decimal(i);
    }
  }

  // ---------------------------------------------------------------- printing

  predicate Printable(t: Json)
    decreases t
  {
    match t
    case JFloat(repr) => FloatRepr(repr)
    case JArr(items) => forall i :: 0 <= i < |items| ==> Printable(items[i])
    case JObj(fields) => forall k :: k in fields ==> Printable(fields[k])
    case _ => true
  }

  function PrintString(s: string): string { "\"" + EscapeAll(s) + "\"" }

  ghost function SortedKeys(fields: map<string, Json>): (keys: seq<string>)
    ensures forall k :: k in keys <==> k in fields
    ensures forall i, j :: 0 <= i < j < |keys| ==> keys[i] != keys[j]
  {
    LexOrders(fields.Keys);
    Sort(LexLeq, fields.Keys)
  }

  /** The text of a tree: keys in code point order, `gap` after every comma and colon (nothing in
      the canonical form, a blank in the form that sets are sorted by). */
  ghost function Print(t: Json, gap: string): string
    decreases t, 1, 0
  {
    match t
    case JNull => "null"
    case JBool(b) => if b then "true" else "false"
    case JInt(i) => IntText(i)
    case JFloat(repr) => repr
    case JStr(s) => PrintString(s)
    case JArr(items) => "[" + PrintItems(t, 0, gap)
    case JObj(fields) => "{" + PrintEntries(t, SortedKeys(fields), true, gap)
  }

  /** The items from `i` on, each but the first after its comma, and the closing bracket. */
  ghost function PrintItems(t: Json, i: nat, gap: string): string
    requires t.JArr? && i <= |t.items|
    decreases t, 0, |t.items| - i
  {
    if i == |t.items| then "]"
    else (if i > 0 then "," + gap else "") + (Print(t.items[i], gap) + PrintItems(t, i + 1, gap))
  }

  ghost function PrintEntries(t: Json, keys: seq<string>, first: bool, gap: string): string
    requires t.JObj? && forall k :: k in keys ==> k in t.fields
    decreases t, 0, |keys|
  {
    if keys == [] then "}"
    else
      (if first then "" else "," + gap)
        + (PrintString(keys[0]) + (":" + gap + (Print(t.fields[keys[0]], gap) + PrintEntries(t, keys[1..], false, gap))))
  }

  // ---------------------------------------------------------------- decoding

  predicate StartsWith(text: string, prefix: string) { |prefix| <= |text| && text[..|prefix|] == prefix }

  /** One value at the start of the text, and the text after it. */
  function Read(text: string, gap: string): (r: Option<(Json, string)>)
    ensures r.Some? ==> |r.value.1| < |text|
    decreases |text|, 1
  {
    if text == "" then None
    else if StartsWith(text, "null") then Some((JNull, text[4..]))
    else if StartsWith(text, "true") then Some((JBool(true), text[4..]))
    else if StartsWith(text, "false") then Some((JBool(false), text[5..]))
    else if text[0] == '\"' then
      var s := ReadString(text[1..]);
      if s.None? then None else Some((JStr(s.value.0), s.value.1))
    else if text[0] == '[' then
      var items := ReadItems(text[1..], true, gap);
      if items.None? then None else Some((JArr(items.value.0), items.value.1))
    else if text[0] == '{' then
      var fields := ReadEntries(text[1..], true, gap);
      if fields.None? then None else Some((JObj(fields.value.0), fields.value.1))
    else
      var n := NumberRun(text);
      var number := NumberOf(text[..n]);
      if n == 0 || number.None? then None else Some((number.value, text[n..]))
  }

  /** The text after the comma and its gap, if one is due here. */
  function AfterComma(text: string, first: bool, gap: string): Option<string> {
    if first then Some(text)
    else if StartsWith(text, "," + gap) then Some(text[|gap| + 1..])
    else None
  }

  function ReadItems(text: string, first: bool, gap: string): (r: Option<(seq<Json>, string)>)
    ensures r.Some? ==> |r.value.1| < |text|
    decreases |text|, 2
  {
    if text != "" && text[0] == ']' then Some(([], text[1..]))
    else
      var at := AfterComma(text, first, gap);
      if at.None? then None
      else
        var item := Read(at.value, gap);
        if item.None? then None
        else
          var more := ReadItems(item.value.1, false, gap);
          if more.None? then None else Some(([item.value.0] + more.value.0, more.value.1))
  }

  function ReadEntries(text: string, first: bool, gap: string): (r: Option<(map<string, Json>, string)>)
    ensures r.Some? ==> |r.value.1| < |text|
    decreases |text|, 2
  {
    if text != "" && text[0] == '}' then Some((map[], text[1..]))
    else
      var at := AfterComma(text, first, gap);
      if at.None? || at.value == "" || at.value[0] != '\"' then None
      else
        var key := ReadString(at.value[1..]);
        if key.None? || !StartsWith(key.value.1, ":" + gap) then None
        else
          var value := Read(key.value.1[|gap| + 1..], gap);
          if value.None? then None
          else
            var more := ReadEntries(value.value.1, false, gap);
            if more.None? then None else Some((more.value.0[key.value.0 := value.value.0], more.value.1))
  }

  function Decode(text: string, gap: string): Option<Json> {
    var r := Read(text, gap);
    if r.Some? && r.value.1 == "" then Some(r.value.0) else None
  }

  // ---------------------------------------------------------------- the decoder recovers every tree

  /** What may follow a value without being taken for a part of it. */
  predicate Stop(rest: string) { rest == "" || !NumberChar(rest[0]) }

  lemma PrintStart(t: Json, gap: string)
    requires Printable(t)
    ensures Print(t, gap) != "" && Print(t, gap)[0] != ']' && Print(t, gap)[0] != ','
  {
    if t.JInt? { ReadsInt(t.i); }
  }

  lemma ReadsNumber(run: string, t: Json, rest: string, gap: string)
    requires run != "" && (run[0] == '-' || '0' <= run[0] <= '9') && (forall c :: c in run ==> NumberChar(c))
    requires NumberOf(run) == Some(t) && Stop(rest)
    ensures Read(run + rest, gap) == Some((t, rest))
  {
    NumberRunStops(run, rest);
    assert (run + rest)[..|run|] == run && (run + rest)[|run|..] == rest;
    assert (run + rest)[0] == run[0];
    NoWord(run + rest);
  }

  lemma ReadsWord(word: string, rest: string, gap: string)
    requires word == "null" || word == "true" || word == "false"
    ensures Read(word + rest, gap) == Some((if word == "null" then JNull else JBool(word == "true"), rest))
  {
    var text := word + rest;
    assert text[..|word|] == word && text[|word|..] == rest;
    assert text[0] == word[0];
    if word != "null" { OtherStart(text, "null"); }
    if word == "false" { OtherStart(text, "true"); }
  }

  /** A text that opens with this character is no keyword. */
  lemma NoWord(text: string)
    requires text != "" && text[0] != 'n' && text[0] != 't' && text[0] != 'f'
    ensures !StartsWith(text, "null") && !StartsWith(text, "true") && !StartsWith(text, "false")
  {
    OtherStart(text, "null");
    OtherStart(text, "true");
    OtherStart(text, "false");
  }

  lemma OtherStart(text: string, prefix: string)
    requires text != "" && prefix != "" && text[0] != prefix[0]
    ensures !StartsWith(text, prefix)
  {
    assert |prefix| <= |text| ==> text[..|prefix|][0] == text[0];
  }

  /** Reading back what was printed, whatever follows it. */
  lemma {:induction false} ReadsPrinted(t: Json, gap: string, rest: string)
    requires Printable(t) && Stop(rest)
    ensures Read(Print(t, gap) + rest, gap) == Some((t, rest))
    decreases t, 1, 0
  {
    match t
    case JNull => ReadsWord("null", rest, gap);
    case JBool(b) => ReadsWord(if b then "true" else "false", rest, gap);
    case JInt(i) =>
      ReadsInt(i);
      ReadsNumber(IntText(i), JInt(i), rest, gap);
    case JFloat(repr) =>
      ReadsNumber(repr, JFloat(repr), rest, gap);
    case JStr(s) => ReadsPrintedString(s, rest, gap);
    case JArr(items) =>
      ReadsItems(t, 0, gap, rest);
      assert items[0..] == items;
      ArrayRead(items, PrintItems(t, 0, gap), rest, gap);
    case JObj(fields) =>
      ReadsEntries(t, SortedKeys(fields), true, gap, rest);
      assert Part(fields, SortedKeys(fields)) == fields;
      ObjectRead(fields, PrintEntries(t, SortedKeys(fields), true, gap), rest, gap);
  }

  lemma ArrayRead(items: seq<Json>, body: string, rest: string, gap: string)
    requires ReadItems(body + rest, true, gap) == Some((items, rest))
    ensures Read("[" + body + rest, gap) == Some((JArr(items), rest))
  {
    Opened("[", body, rest);
  }

  lemma ObjectRead(fields: map<string, Json>, body: string, rest: string, gap: string)
    requires ReadEntries(body + rest, true, gap) == Some((fields, rest))
    ensures Read("{" + body + rest, gap) == Some((JObj(fields), rest))
  {
    Opened("{", body, rest);
  }

  lemma Opened(bracket: string, body: string, rest: string)
    requires bracket == "[" || bracket == "{"
    ensures var text := bracket + body + rest;
            && text[0] == bracket[0] && text[1..] == body + rest
            && !StartsWith(text, "null") && !StartsWith(text, "true") && !StartsWith(text, "false")
  {
    NoWord(bracket + body + rest);
  }

  lemma ReadsPrintedString(s: string, rest: string, gap: string)
    ensures Read(PrintString(s) + rest, gap) == Some((JStr(s), rest))
  {
    var text := PrintString(s) + rest;
    NoWord(text);
    assert text[1..] == EscapeAll(s) + "\"" + rest;
    ReadsString(s, rest);
  }

  /** Past the separator of an item that is not the first, or right at one that is. */
  lemma CommaPassed(first: bool, gap: string, body: string)
    requires body != "" && body[0] != ']' && body[0] != ','
    ensures var text := (if first then "" else "," + gap) + body;
            AfterComma(text, first, gap) == Some(body) && text != "" && text[0] != ']'
            && (first ==> text[0] == body[0]) && (!first ==> text[0] == ',')
  {
    if !first {
      var text := "," + gap + body;
      assert text[..|gap| + 1] == "," + gap && text[|gap| + 1..] == body;
    } else {
      assert "" + body == body;
    }
  }

  lemma {:induction false} ReadsItems(t: Json, i: nat, gap: string, rest: string)
    requires Printable(t) && t.JArr? && i <= |t.items|
    ensures ReadItems(PrintItems(t, i, gap) + rest, i == 0, gap) == Some((t.items[i..], rest))
    decreases t, 0, |t.items| - i
  {
    if i == |t.items| {
      assert ("]" + rest)[1..] == rest && t.items[i..] == [];
    } else {
      var head, tail := Print(t.items[i], gap), PrintItems(t, i + 1, gap);
      var body := head + (tail + rest);
      var text := PrintItems(t, i, gap) + rest;
      PrintStart(t.items[i], gap);
      CommaPassed(i == 0, gap, body);
      assert text == (if i == 0 then "" else "," + gap) + body by {
        Regroup(if i == 0 then "" else "," + gap, head + tail, rest);
        Regroup(head, tail, rest);
      }
      assert Stop(tail + rest);
      ReadsPrinted(t.items[i], gap, tail + rest);
      ReadsItems(t, i + 1, gap, rest);
      assert t.items[i..] == [t.items[i]] + t.items[i + 1..];
    }
  }

  function Part(fields: map<string, Json>, keys: seq<string>): map<string, Json>
    requires forall k :: k in keys ==> k in fields
  {
    map k | k in keys :: fields[k]
  }

  lemma PartStep(fields: map<string, Json>, keys: seq<string>)
    requires keys != [] && forall k :: k in keys ==> k in fields
    ensures Part(fields, keys) == Part(fields, keys[1..])[keys[0] := fields[keys[0]]]
  {
    assert forall j :: j in keys <==> j == keys[0] || j in keys[1..];
  }

  lemma KeyPassed(k: string, gap: string, value: string)
    ensures var text := PrintString(k) + (":" + gap + value);
            && text != "" && text[0] == '\"'
            && ReadString(text[1..]) == Some((k, ":" + gap + value))
            && StartsWith(":" + gap + value, ":" + gap) && (":" + gap + value)[|gap| + 1..] == value
  {
    var tail := ":" + gap + value;
    ReadsString(k, tail);
    assert (PrintString(k) + tail)[1..] == EscapeAll(k) + "\"" + tail;
    assert tail[..|gap| + 1] == ":" + gap;
  }

  lemma {:induction false} ReadsEntries(t: Json, keys: seq<string>, first: bool, gap: string, rest: string)
    requires Printable(t) && t.JObj? && (forall k :: k in keys ==> k in t.fields)
    requires forall i, j :: 0 <= i < j < |keys| ==> keys[i] != keys[j]
    ensures ReadEntries(PrintEntries(t, keys, first, gap) + rest, first, gap) == Some((Part(t.fields, keys), rest))
    decreases t, 0, |keys|
  {
    if keys == [] {
      assert ("}" + rest)[1..] == rest;
      assert Part(t.fields, keys) == map[];
    } else {
      var k := keys[0];
      var head, tail := Print(t.fields[k], gap), PrintEntries(t, keys[1..], false, gap);
      EntryText(if first then "" else "," + gap, PrintString(k), ":" + gap, head, tail, rest);
      EntriesStop(t, keys[1..], gap, rest);
      ReadsPrinted(t.fields[k], gap, tail + rest);
      ReadsEntries(t, keys[1..], false, gap, rest);
      EntryRead(k, t.fields[k], Part(t.fields, keys[1..]), first, gap, head, tail + rest, rest);
      PartStep(t.fields, keys);
    }
  }

  lemma EntryRead(k: string, value: Json, more: map<string, Json>, first: bool, gap: string, head: string, tail: string, rest: string)
    requires Read(head + tail, gap) == Some((value, tail)) && ReadEntries(tail, false, gap) == Some((more, rest))
    ensures ReadEntries((if first then "" else "," + gap) + (PrintString(k) + (":" + gap + (head + tail))), first, gap)
         == Some((more[k := value], rest))
  {
    var body := PrintString(k) + (":" + gap + (head + tail));
    CommaPassed(first, gap, body);
    KeyPassed(k, gap, head + tail);
  }

  lemma EntriesStop(t: Json, keys: seq<string>, gap: string, rest: string)
    requires t.JObj? && forall k :: k in keys ==> k in t.fields
    ensures Stop(PrintEntries(t, keys, false, gap) + rest)
  {
    var text := PrintEntries(t, keys, false, gap);
    assert text != "" && (text[0] == '}' || text[0] == ',');
    assert (text + rest)[0] == text[0];
  }

  lemma EntryText(comma: string, key: string, colon: string, value: string, tail: string, rest: string)
    ensures comma + (key + (colon + (value + tail))) + rest == comma + (key + (colon + (value + (tail + rest))))
  {
  }

  /** Distinct trees have distinct texts: the decoder gives every tree back. */
  lemma DecodesEveryTree(t: Json, gap: string)
    requires Printable(t)
    ensures Decode(Print(t, gap), gap) == Some(t)
  {
    ReadsPrinted(t, gap, "");
    assert Print(t, gap) + "" == Print(t, gap);
  }

  lemma PrintIsInjective(a: Json, b: Json, gap: string)
    requires Printable(a) && Printable(b) && Print(a, gap) == Print(b, gap)
    ensures a == b
  {
    DecodesEveryTree(a, gap);
    DecodesEveryTree(b, gap);
  }
}
