/** Reading a response body chunk by chunk through its content decoders, within its limits. */
module Decoding {
  import opened Common

  newtype byte = x: int | 0 <= x < 256

  type Bytes = seq<byte>

  const CHUNK_LIMIT := 65536
  const GZIP_MAGIC: Bytes := [0x1f, 0x8b]

  /** A decoder as a function of all it was fed: what it has given out by then, and what it adds at the
      end; `None` where the stream is broken, or ends too early. */
  datatype Codec = Codec(run: Bytes -> Option<Bytes>, tail: Bytes -> Option<Bytes>)

  /** More input only adds output, and never mends a broken stream. */
  ghost predicate Homomorphic(codec: Codec) {
    && codec.run([]) == Some([])
    && forall a, b {:trigger codec.run(a), codec.run(b)} :: a <= b && codec.run(b).Some? ==>
         codec.run(a).Some? && codec.run(a).value <= codec.run(b).value
  }

  ghost predicate AllHomomorphic(codecs: seq<Codec>) {
    forall i :: 0 <= i < |codecs| ==> Homomorphic(codecs[i])
  }

  datatype ReadError = TooLarge | Bomb | Broken

  // ---------------------------------------------------------------- a chain of decoders, all at once

  /** What comes out of the decoders from `k` on, once `input` went in and nothing was finished. */
  function Through(codecs: seq<Codec>, k: nat, input: Bytes): Option<Bytes>
    requires k <= |codecs|
    decreases |codecs| - k
  {
    if k == |codecs| then Some(input)
    else
      var out := codecs[k].run(input);
      if out.None? then None else Through(codecs, k + 1, out.value)
  }

  /** What comes out in all, every decoder finished in turn. */
  function Whole(codecs: seq<Codec>, k: nat, input: Bytes): Option<Bytes>
    requires k <= |codecs|
    decreases |codecs| - k
  {
    if k == |codecs| then Some(input)
    else
      var out, tail := codecs[k].run(input), codecs[k].tail(input);
      if out.None? || tail.None? then None else Whole(codecs, k + 1, out.value + tail.value)
  }

  /** A chain of decoders is homomorphic as its decoders are. */
  lemma {:induction false} ThroughGrows(codecs: seq<Codec>, k: nat, a: Bytes, b: Bytes)
    requires AllHomomorphic(codecs) && k <= |codecs| && a <= b && Through(codecs, k, b).Some?
    ensures Through(codecs, k, a).Some? && Through(codecs, k, a).value <= Through(codecs, k, b).value
    decreases |codecs| - k
  {
    if k < |codecs| {
      assert Homomorphic(codecs[k]);
      ThroughGrows(codecs, k + 1, codecs[k].run(a).value, codecs[k].run(b).value);
    }
  }

  /** What can be finished could be fed, and finishing only adds to it. */
  lemma {:induction false} WholeExtendsThrough(codecs: seq<Codec>, k: nat, input: Bytes)
    requires AllHomomorphic(codecs) && k <= |codecs| && Whole(codecs, k, input).Some?
    ensures Through(codecs, k, input).Some? && Through(codecs, k, input).value <= Whole(codecs, k, input).value
    decreases |codecs| - k
  {
    if k < |codecs| {
      var out, tail := codecs[k].run(input).value, codecs[k].tail(input).value;
      WholeExtendsThrough(codecs, k + 1, out + tail);
      ThroughGrows(codecs, k + 1, out, out + tail);
    }
  }

  // ---------------------------------------------------------------- a chain of decoders, piece by piece

  class Chain {
    const codecs: seq<Codec>
    /** What each decoder was fed so far, and last what came out of them all. */
    var fed: seq<Bytes>

    ghost predicate Valid() reads this`fed { |fed| == |codecs| + 1 && AllHomomorphic(codecs) }

    /** From decoder `k` on, each was fed exactly what the one before it gave out. */
    ghost predicate Linked(k: nat) reads this`fed
      requires |fed| == |codecs| + 1
    {
      forall j :: k <= j < |codecs| ==> codecs[j].run(fed[j]) == Some(fed[j + 1])
    }

    constructor (codecs: seq<Codec>)
      requires AllHomomorphic(codecs)
      ensures Valid() && Linked(0) && this.codecs == codecs && forall j :: 0 <= j < |fed| ==> fed[j] == []
    {
      this.codecs := codecs;
      fed := seq(|codecs| + 1, _ => []);
      new;
      assert forall j :: 0 <= j < |codecs| ==> Homomorphic(codecs[j]);
    }

    lemma LinkedThrough(k: nat)
      requires Valid() && Linked(k) && k <= |codecs|
      ensures Through(codecs, k, fed[k]) == Some(fed[|codecs|])
      decreases |codecs| - k
    {
      if k < |codecs| { LinkedThrough(k + 1); }
    }

    /** Feeds one decoder; its output comes in pieces of limited size. */
    method Feed(k: nat, data: Bytes) returns (r: Option<seq<Bytes>>)
      requires Valid() && k < |codecs| && codecs[k].run(fed[k]).Some?
      modifies this`fed
      ensures Valid() && fed == old(fed)[k := old(fed[k]) + data]
      ensures r.Some? <==> codecs[k].run(fed[k]).Some?
      ensures r.Some? ==> codecs[k].run(fed[k]).value == codecs[k].run(old(fed[k])).value + Join(r.value)
    {
      var before := codecs[k].run(fed[k]).value;
      ghost var was := fed[k];
      fed := fed[k := fed[k] + data];
      var now := codecs[k].run(fed[k]);
      if now.None? { return None; }
      assert Homomorphic(codecs[k]) && was <= fed[k];
      var pieces := Cut(now.value[|before|..]);
      r := Some(pieces);
    }

    /** Sends data into decoder `k` and whatever comes out of it through the rest. */
    method Pipe(k: nat, data: Bytes) returns (r: Option<seq<Bytes>>)
      requires Valid() && k <= |codecs| && Linked(k)
      modifies this`fed
      ensures Valid() && fed[..k] == old(fed)[..k]
      ensures r.Some? <==> Through(codecs, k, old(fed[k]) + data).Some?
      ensures r.Some? ==> Linked(k) && fed[k] == old(fed[k]) + data && fed[|codecs|] == old(fed[|codecs|]) + Join(r.value)
      decreases |codecs| - k, 0
    {
      if k == |codecs| {
        fed := fed[k := fed[k] + data];
        JoinOne(data);
        return Some([data]);
      }
      assert codecs[k].run(fed[k]) == Some(fed[k + 1]);
      var pieces := Feed(k, data);
      if pieces.None? { return None; }
      r := PipeAll(k + 1, pieces.value);
    }

    /** Sends pieces into decoder `k` one after another. */
    method PipeAll(k: nat, pieces: seq<Bytes>) returns (r: Option<seq<Bytes>>)
      requires Valid() && k <= |codecs| && Linked(k)
      modifies this`fed
      ensures Valid() && fed[..k] == old(fed)[..k]
      ensures r.Some? <==> Through(codecs, k, old(fed[k]) + Join(pieces)).Some?
      ensures r.Some? ==> Linked(k) && fed[k] == old(fed[k]) + Join(pieces) && fed[|codecs|] == old(fed[|codecs|]) + Join(r.value)
      decreases |codecs| - k, 1
    {
      ghost var start, end := fed[k], fed[|codecs|];
      var out: seq<Bytes> := [];
      assert pieces[..0] == [];
      for i := 0 to |pieces|
        invariant Valid() && Linked(k) && fed[..k] == old(fed)[..k]
        invariant fed[k] == start + Join(pieces[..i]) && fed[|codecs|] == end + Join(out)
      {
        ghost var rest := RestOfJoin(start, pieces, i);
        var more := Pipe(k, pieces[i]);
        if more.None? {
          ghost var next := start + Join(pieces[..i]) + pieces[i];
          assert next <= next + rest;
          if Through(codecs, k, next + rest).Some? { ThroughGrows(codecs, k, next, next + rest); }
          return None;
        }
        Gather(end, out, more.value);
        out := out + more.value;
        Gather(start, pieces[..i], [pieces[i]]);
        JoinOne(pieces[i]);
        assert pieces[..i + 1] == pieces[..i] + [pieces[i]];
      }
      assert pieces[..|pieces|] == pieces;
      LinkedThrough(k);
      r := Some(out);
    }

    /** Finishes decoder `k` and those after it, left to right; each gets its predecessor's tail first. */
    method Finish(k: nat) returns (r: Option<seq<Bytes>>)
      requires Valid() && k <= |codecs| && Linked(k)
      modifies this`fed
      ensures Valid()
      ensures r.Some? <==> Whole(codecs, k, old(fed[k])).Some?
      ensures r.Some? ==> Whole(codecs, k, old(fed[k])) == Some(fed[|codecs|])
      ensures r.Some? ==> fed[|codecs|] == old(fed[|codecs|]) + Join(r.value)
      decreases |codecs| - k
    {
      if k == |codecs| { return Some([]); }
      assert codecs[k].run(fed[k]) == Some(fed[k + 1]);
      var tail := codecs[k].tail(fed[k]);
      if tail.None? { return None; }
      ghost var next, end := fed[k + 1] + tail.value, fed[|codecs|];
      var pieces := Cut(tail.value);
      var first := PipeAll(k + 1, pieces);
      if Whole(codecs, k + 1, next).Some? { WholeExtendsThrough(codecs, k + 1, next); }
      if first.None? { return None; }
      var second := Finish(k + 1);
      if second.None? { return None; }
      Gather(end, first.value, second.value);
      r := Some(first.value + second.value);
    }
  }

  lemma Gather(start: Bytes, a: seq<Bytes>, b: seq<Bytes>)
    ensures start + Join(a + b) == start + Join(a) + Join(b)
  {
    JoinConcat(a, b);
    Regroup(start, Join(a), Join(b));
  }

  lemma RestOfJoin(start: Bytes, pieces: seq<Bytes>, i: nat) returns (rest: Bytes)
    requires i < |pieces|
    ensures start + Join(pieces) == start + Join(pieces[..i]) + pieces[i] + rest
  {
    rest := Join(pieces[i + 1..]);
    assert pieces == pieces[..i] + [pieces[i]] + pieces[i + 1..];
    Gather(start, pieces[..i] + [pieces[i]], pieces[i + 1..]);
    Gather(start, pieces[..i], [pieces[i]]);
    JoinOne(pieces[i]);
  }

  /** Cuts output into the pieces a decoder hands out. */
  method Cut(data: Bytes) returns (pieces: seq<Bytes>)
    ensures Join(pieces) == data && forall i :: 0 <= i < |pieces| ==> 0 < |pieces[i]| <= CHUNK_LIMIT
  {
    pieces := [];
    var at := 0;
    while at < |data|
      invariant at <= |data| && Join(pieces) == data[..at]
      invariant forall i :: 0 <= i < |pieces| ==> 0 < |pieces[i]| <= CHUNK_LIMIT
    {
      var end := if |data| - at < CHUNK_LIMIT then |data| else at + CHUNK_LIMIT;
      JoinSnoc(pieces, data[at..end]);
      pieces := pieces + [data[at..end]];
      assert data[..end] == data[..at] + data[at..end];
      at := end;
    }
    assert data[..|data|] == data;
  }

  // ---------------------------------------------------------------- reading a body

  datatype Limits = Limits(maxBytes: nat, maxRatio: nat, ratioMinBytes: nat, sitemap: bool)

  datatype Body = Body(data: Bytes, received: nat, decoded: nat, storedCompressed: bool)

  /** A sitemap that is a gzip file is unpacked once more, to be counted. */
  function InnerFor(sitemap: bool, gunzip: Codec, entity: Bytes): seq<Codec> {
    if sitemap && GZIP_MAGIC <= entity then [gunzip] else []
  }

  /** What a body is, as a function of its bytes alone. */
  function TheBody(codecs: seq<Codec>, gunzip: Codec, sitemap: bool, bytes: Bytes): Option<Body> {
    var entity := Whole(codecs, 0, bytes);
    if entity.None? then None
    else
      var inner := InnerFor(sitemap, gunzip, entity.value);
      var text := Whole(inner, 0, entity.value);
      if text.None? then None else Some(Body(entity.value, |bytes|, |text.value|, inner != []))
  }

  /** What an error says about the entity read so far and the bytes received for it: its inner stream is
      broken, or longer than the limit, or longer than both the guard's start and its ratio allow. */
  ghost predicate Excuse(limits: Limits, e: ReadError, inner: seq<Codec>, seen: Bytes, received: nat) {
    match e
    case Broken => Through(inner, 0, seen).None?
    case TooLarge => Through(inner, 0, seen).Some? && |Through(inner, 0, seen).value| > limits.maxBytes
    case Bomb => Through(inner, 0, seen).Some? && OverRatio(limits, |Through(inner, 0, seen).value|, received)
  }

  predicate OverRatio(limits: Limits, decoded: nat, received: nat) {
    decoded > limits.ratioMinBytes && decoded > limits.maxRatio * received
  }

  class Reader {
    const limits: Limits
    const gunzip: Codec
    var decided: bool
    var head: Bytes
    var inner: Chain
    var parts: seq<Bytes>
    var received: nat
    var decoded: nat

    /** The inner stream was fed all parts, and what came out of it was counted. */
    ghost predicate Counted() reads this, inner {
      && Homomorphic(gunzip) && inner.Valid() && inner.Linked(0)
      && inner.fed[0] == Join(parts) && decoded == |inner.fed[|inner.codecs|]| <= limits.maxBytes
    }

    ghost predicate Valid() reads this, inner {
      && Counted()
      && (if decided then head == [] && (limits.sitemap ==> |Join(parts)| >= 2) && inner.codecs == InnerFor(limits.sitemap, gunzip, Join(parts))
          else limits.sitemap && parts == [] && |head| < 2 && inner.codecs == [])
    }

    ghost function Seen(): Bytes reads this { Join(parts) + head }

    constructor (limits: Limits, gunzip: Codec)
      requires Homomorphic(gunzip)
      ensures Valid() && fresh(inner) && Seen() == [] && received == 0 && this.limits == limits && this.gunzip == gunzip
    {
      this.limits := limits;
      this.gunzip := gunzip;
      decided := !limits.sitemap;
      head, parts, received, decoded := [], [], 0, 0;
      inner := new Chain([]);
    }

    method Count(size: nat) returns (e: Option<ReadError>)
      modifies this`decoded
      ensures decoded == old(decoded) + size
      ensures e.None? ==> decoded <= limits.maxBytes
      ensures e == Some(TooLarge) ==> decoded > limits.maxBytes
      ensures e == Some(Bomb) ==> OverRatio(limits, decoded, received)
      ensures e.None? ==> !OverRatio(limits, decoded, received)
      ensures e.Some? ==> !e.value.Broken?
    {
      decoded := decoded + size;
      if decoded > limits.maxBytes { return Some(TooLarge); }
      if decoded > limits.ratioMinBytes && decoded > limits.maxRatio * received { return Some(Bomb); }
      e := None;
    }

    /** Counts pieces until a limit is passed; what was counted is part of what there is. */
    method CountAll(pieces: seq<Bytes>) returns (e: Option<ReadError>)
      requires decoded <= limits.maxBytes
      modifies this`decoded
      ensures e.None? ==> decoded == old(decoded) + |Join(pieces)| <= limits.maxBytes
      ensures e == Some(TooLarge) ==> old(decoded) + |Join(pieces)| > limits.maxBytes
      ensures e == Some(Bomb) ==> OverRatio(limits, old(decoded) + |Join(pieces)|, received)
      ensures e.Some? ==> !e.value.Broken?
    {
      assert pieces[..0] == [];
      for i := 0 to |pieces|
        invariant decoded == old(decoded) + |Join(pieces[..i])| <= limits.maxBytes
      {
        ghost var rest := RestOfJoin([], pieces, i);
        JoinSnoc(pieces[..i], pieces[i]);
        assert pieces[..i + 1] == pieces[..i] + [pieces[i]];
        e := Count(|pieces[i]|);
        if e.Some? { return; }
      }
      assert pieces[..|pieces|] == pieces;
      e := None;
    }

    /** Keeps a part of the entity, and counts it or what its inner stream gives out. */
    method Consume(entity: Bytes) returns (e: Option<ReadError>)
      requires Counted() && decided && head == []
      requires |Join(parts) + entity| >= 2 || !limits.sitemap
      requires inner.codecs == InnerFor(limits.sitemap, gunzip, Join(parts) + entity)
      modifies this`parts, this`decoded, inner`fed
      ensures parts == old(parts) + [entity]
      ensures e.None? ==> Valid()
      ensures e.Some? ==> Excuse(limits, e.value, inner.codecs, Join(parts), received)
    {
      ghost var whole := Join(parts) + entity;
      JoinSnoc(parts, entity);
      parts := parts + [entity];
      inner.LinkedThrough(0);
      var pieces := inner.Pipe(0, entity);
      if pieces.None? { return Some(Broken); }
      inner.LinkedThrough(0);
      e := CountAll(pieces.value);
    }

    /** A part of the entity. Whether a sitemap is a gzip file is decided by the first two bytes of the
        entity, however they arrive. */
    method ConsumeEntity(entity: Bytes) returns (e: Option<ReadError>)
      requires Valid()
      modifies this`decided, this`head, this`inner, this`parts, this`decoded, inner`fed
      ensures inner == old(inner) || fresh(inner)
      ensures Seen() == old(Seen()) + entity
      ensures e.None? ==> Valid()
      ensures e.Some? ==> Excuse(limits, e.value, inner.codecs, Seen(), received)
      ensures e.Some? ==> inner.codecs == InnerFor(limits.sitemap, gunzip, Seen()) && (limits.sitemap ==> |Seen()| >= 2)
    {
      var part := entity;
      if !decided {
        var ready := Decide(entity);
        if !ready { return None; }
        part, head := head, [];
      } else {
        SamePrefix(limits.sitemap, gunzip, Join(parts), entity);
      }
      e := Consume(part);
      JoinSnoc(old(parts), part);
      assert Join(parts) + [] == Join(parts);
    }

    /** Gathers the first bytes, and opens the inner stream once there are enough to tell. */
    method Decide(entity: Bytes) returns (ready: bool)
      requires Valid() && !decided
      modifies this`decided, this`head, this`inner
      ensures inner == old(inner) || fresh(inner)
      ensures head == old(head) + entity && Counted() && decided == ready
      ensures if ready then |head| >= 2 && inner.codecs == InnerFor(limits.sitemap, gunzip, head) else Valid()
    {
      head := head + entity;
      if |head| < |GZIP_MAGIC| { return false; }
      decided := true;
      if GZIP_MAGIC <= head { inner := new Chain([gunzip]); }
      ready := true;
    }

    /** What is left of an entity shorter than two bytes, and the end of the inner stream. */
    method Close() returns (e: Option<ReadError>)
      requires Valid()
      modifies this`decided, this`head, this`parts, this`decoded, inner`fed
      ensures inner == old(inner) && Join(parts) == old(Seen())
      ensures inner.codecs == InnerFor(limits.sitemap, gunzip, Join(parts))
      ensures e.None? ==> Whole(inner.codecs, 0, Join(parts)).Some? && decoded == |Whole(inner.codecs, 0, Join(parts)).value| <= limits.maxBytes
      ensures e == Some(Broken) ==> Whole(inner.codecs, 0, Join(parts)).None?
      ensures e == Some(TooLarge) && Whole(inner.codecs, 0, Join(parts)).Some? ==> |Whole(inner.codecs, 0, Join(parts)).value| > limits.maxBytes
      ensures e == Some(Bomb) && Whole(inner.codecs, 0, Join(parts)).Some? ==>
        OverRatio(limits, |Whole(inner.codecs, 0, Join(parts)).value|, received)
    {
      if head != [] {
        var part := head;
        head := [];
        e := ConsumeShort(part);
        if e.Some? { return; }
      }
      var pieces := inner.Finish(0);
      if pieces.None? { return Some(Broken); }
      e := CountAll(pieces.value);
    }

    /** An entity too short to be a gzip file is taken as it is. */
    method ConsumeShort(entity: Bytes) returns (e: Option<ReadError>)
      requires !decided && limits.sitemap && parts == [] && inner.codecs == [] && 0 < |entity| < 2 && decoded == 0
      requires inner.Valid() && inner.Linked(0) && inner.fed[0] == [] && inner.fed[|inner.codecs|] == []
      modifies this`parts, this`decoded, inner`fed
      ensures parts == [entity] && Join(parts) == entity
      ensures e.None? ==> inner.Valid() && inner.Linked(0) && inner.fed[0] == entity && decoded == |inner.fed[|inner.codecs|]| <= limits.maxBytes
      ensures e.Some? ==> Excuse(limits, e.value, inner.codecs, entity, received)
    {
      parts := parts + [entity];
      JoinOne(entity);
      var pieces := inner.Pipe(0, entity);
      if pieces.None? { return Some(Broken); }
      e := CountAll(pieces.value);
    }
  }

  lemma SamePrefix(sitemap: bool, gunzip: Codec, seen: Bytes, more: Bytes)
    requires sitemap ==> |seen| >= 2
    ensures InnerFor(sitemap, gunzip, seen + more) == InnerFor(sitemap, gunzip, seen)
  {
    if |seen| >= 2 { assert (seen + more)[..2] == seen[..2]; }
  }

  // ---------------------------------------------------------------- the whole body

  /** What a finished or failed reading says about the body as a whole. */
  ghost predicate Reads(codecs: seq<Codec>, gunzip: Codec, limits: Limits, bytes: Bytes, r: Result<Body, ReadError>) {
    var body := TheBody(codecs, gunzip, limits.sitemap, bytes);
    match r
    case Ok(b) => body == Some(b) && b.received <= limits.maxBytes && b.decoded <= limits.maxBytes
    case Err(Broken) => body.None?
    case Err(TooLarge) => body.Some? ==> body.value.received > limits.maxBytes || body.value.decoded > limits.maxBytes
    case Err(Bomb) => body.Some? ==> exists n: nat :: n <= |bytes| && OverRatio(limits, OutputAt(codecs, gunzip, limits.sitemap, bytes, n), n)
  }

  /** How much a body has been unpacked to once its first `n` bytes are received, and once it is ended. */
  function OutputAt(codecs: seq<Codec>, gunzip: Codec, sitemap: bool, bytes: Bytes, n: nat): nat
    requires n <= |bytes| && TheBody(codecs, gunzip, sitemap, bytes).Some?
  {
    var entity := Whole(codecs, 0, bytes).value;
    var inner := InnerFor(sitemap, gunzip, entity);
    if n == |bytes| then |Whole(inner, 0, entity).value|
    else
      var upTo := Through(codecs, 0, bytes[..n]);
      if upTo.None? || Through(inner, 0, upTo.value).None? then 0 else |Through(inner, 0, upTo.value).value|
  }

  /** An error met on a part of the entity is an error of the whole. */
  lemma ExcuseOfWhole(codecs: seq<Codec>, gunzip: Codec, limits: Limits, bytes: Bytes, e: ReadError, seen: Bytes, n: nat)
    requires AllHomomorphic(codecs) && Homomorphic(gunzip) && (limits.sitemap ==> |seen| >= 2) && n <= |bytes|
    requires Whole(codecs, 0, bytes).Some? ==> seen <= Whole(codecs, 0, bytes).value
    requires n < |bytes| && Through(codecs, 0, bytes[..n]).Some? ==> seen <= Through(codecs, 0, bytes[..n]).value
    requires Excuse(limits, e, InnerFor(limits.sitemap, gunzip, seen), seen, n)
    ensures Reads(codecs, gunzip, limits, bytes, Err(e))
  {
    if Whole(codecs, 0, bytes).Some? {
      var entity := Whole(codecs, 0, bytes).value;
      var inner := InnerFor(limits.sitemap, gunzip, entity);
      assert entity == seen + entity[|seen|..];
      SamePrefix(limits.sitemap, gunzip, seen, entity[|seen|..]);
      if Whole(inner, 0, entity).Some? {
        WholeExtendsThrough(inner, 0, entity);
        ThroughGrows(inner, 0, seen, entity);
        if e.Bomb? { BombAt(codecs, gunzip, limits, bytes, seen, n); }
      }
    }
  }

  /** What had come out by then was already over the ratio. */
  lemma BombAt(codecs: seq<Codec>, gunzip: Codec, limits: Limits, bytes: Bytes, seen: Bytes, n: nat)
    requires AllHomomorphic(codecs) && Homomorphic(gunzip) && n <= |bytes| && TheBody(codecs, gunzip, limits.sitemap, bytes).Some?
    requires seen <= Whole(codecs, 0, bytes).value
    requires n < |bytes| && Through(codecs, 0, bytes[..n]).Some? ==> seen <= Through(codecs, 0, bytes[..n]).value
    requires var inner := InnerFor(limits.sitemap, gunzip, Whole(codecs, 0, bytes).value);
             Through(inner, 0, seen).Some? && OverRatio(limits, |Through(inner, 0, seen).value|, n)
    ensures OverRatio(limits, OutputAt(codecs, gunzip, limits.sitemap, bytes, n), n)
  {
    var entity := Whole(codecs, 0, bytes).value;
    var inner := InnerFor(limits.sitemap, gunzip, entity);
    WholeExtendsThrough(inner, 0, entity);
    ThroughGrows(inner, 0, seen, entity);
    if n < |bytes| {
      EntityGrows(codecs, bytes[..n], bytes);
      var upTo := Through(codecs, 0, bytes[..n]).value;
      ThroughGrows(inner, 0, upTo, entity);
      ThroughGrows(inner, 0, seen, upTo);
    }
  }

  /** Feeds a reader what the chain gives out. */
  method ConsumeAll(reader: Reader, entities: seq<Bytes>) returns (e: Option<ReadError>)
    requires reader.Valid()
    modifies reader`decided, reader`head, reader`inner, reader`parts, reader`decoded, reader.inner`fed
    ensures reader.inner == old(reader.inner) || fresh(reader.inner)
    ensures e.None? ==> reader.Valid() && reader.Seen() == old(reader.Seen()) + Join(entities)
    ensures e.Some? ==> reader.Seen() <= old(reader.Seen()) + Join(entities)
    ensures e.Some? ==> Excuse(reader.limits, e.value, InnerFor(reader.limits.sitemap, reader.gunzip, reader.Seen()), reader.Seen(), reader.received)
    ensures e.Some? && reader.limits.sitemap ==> |reader.Seen()| >= 2
  {
    ghost var start := reader.Seen();
    assert entities[..0] == [];
    for i := 0 to |entities|
      invariant reader.inner == old(reader.inner) || fresh(reader.inner)
      invariant reader.Valid() && reader.Seen() == start + Join(entities[..i])
    {
      ghost var rest := RestOfJoin(start, entities, i);
      assert start + Join(entities[..i]) + entities[i] <= start + Join(entities[..i]) + entities[i] + rest;
      Gather(start, entities[..i], [entities[i]]);
      JoinOne(entities[i]);
      assert entities[..i + 1] == entities[..i] + [entities[i]];
      e := reader.ConsumeEntity(entities[i]);
      if e.Some? { return; }
    }
    assert entities[..|entities|] == entities;
    e := None;
  }

  /** The reader has seen all that came out of the chain, and the chain was fed these bytes. */
  ghost predicate InStep(chain: Chain, reader: Reader, bytes: Bytes)
    reads chain, reader, reader.inner
  {
    && chain.Valid() && chain.Linked(0) && reader.Valid() && chain != reader.inner
    && chain.fed[0] == bytes && chain.fed[|chain.codecs|] == reader.Seen()
    && reader.received == |bytes| <= reader.limits.maxBytes
  }

  method ReadChunk(chain: Chain, reader: Reader, chunk: Bytes, ghost bytes: Bytes, ghost rest: Bytes) returns (e: Option<ReadError>)
    requires InStep(chain, reader, bytes)
    modifies chain, reader, reader.inner
    ensures reader.inner == old(reader.inner) || fresh(reader.inner)
    ensures e.None? ==> InStep(chain, reader, bytes + chunk)
    ensures e.Some? ==> Reads(chain.codecs, reader.gunzip, reader.limits, bytes + chunk + rest, Err(e.value))
  {
    reader.received := reader.received + |chunk|;
    if reader.received > reader.limits.maxBytes { return Some(TooLarge); }
    var entities := chain.Pipe(0, chunk);
    EntityGrows(chain.codecs, bytes + chunk, bytes + chunk + rest);
    if entities.None? { return Some(Broken); }
    chain.LinkedThrough(0);
    e := ConsumeAll(reader, entities.value);
    if e.Some? {
      assert (bytes + chunk + rest)[..reader.received] == bytes + chunk;
      ExcuseOfWhole(chain.codecs, reader.gunzip, reader.limits, bytes + chunk + rest, e.value, reader.Seen(), reader.received);
    }
  }

  method Conclude(chain: Chain, reader: Reader, ghost bytes: Bytes) returns (r: Result<Body, ReadError>)
    requires InStep(chain, reader, bytes)
    modifies chain, reader, reader.inner
    ensures Reads(chain.codecs, reader.gunzip, reader.limits, bytes, r)
  {
    var entities := chain.Finish(0);
    if entities.None? { return Err(Broken); }
    var e := ConsumeAll(reader, entities.value);
    if e.Some? {
      ExcuseOfWhole(chain.codecs, reader.gunzip, reader.limits, bytes, e.value, reader.Seen(), |bytes|);
      return Err(e.value);
    }
    r := CloseReader(reader, chain.codecs, bytes);
  }

  /** The reader has the whole entity; what is left is the end of its inner stream. */
  method CloseReader(reader: Reader, ghost codecs: seq<Codec>, ghost bytes: Bytes) returns (r: Result<Body, ReadError>)
    requires reader.Valid() && Whole(codecs, 0, bytes) == Some(reader.Seen()) && reader.received == |bytes| <= reader.limits.maxBytes
    modifies reader, reader.inner
    ensures Reads(codecs, reader.gunzip, reader.limits, bytes, r)
  {
    var e := reader.Close();
    if e == Some(Bomb) && TheBody(codecs, reader.gunzip, reader.limits.sitemap, bytes).Some? {
      assert OverRatio(reader.limits, OutputAt(codecs, reader.gunzip, reader.limits.sitemap, bytes, |bytes|), |bytes|);
    }
    if e.Some? { return Err(e.value); }
    r := Ok(Body(Join(reader.parts), reader.received, reader.decoded, reader.inner.codecs != []));
  }

  /** Reads a body from its network chunks. A body that is read is the same however it was cut into
      chunks, and one that fits its limits, and is at no point over the ratio, is always read. */
  method ReadBody(chunks: seq<Bytes>, codecs: seq<Codec>, gunzip: Codec, limits: Limits) returns (r: Result<Body, ReadError>)
    requires AllHomomorphic(codecs) && Homomorphic(gunzip)
    ensures Reads(codecs, gunzip, limits, Join(chunks), r)
  {
    var chain := new Chain(codecs);
    var reader := new Reader(limits, gunzip);
    assert chunks[..0] == [];
    for i := 0 to |chunks|
      invariant fresh(chain) && fresh(reader) && fresh(reader.inner)
      invariant chain.codecs == codecs && reader.limits == limits && reader.gunzip == gunzip
      invariant InStep(chain, reader, Join(chunks[..i]))
    {
      ghost var rest := RestOfChunks(chunks, i);
      var e := ReadChunk(chain, reader, chunks[i], Join(chunks[..i]), rest);
      if e.Some? { return Err(e.value); }
    }
    assert chunks[..|chunks|] == chunks;
    r := Conclude(chain, reader, Join(chunks));
  }

  lemma RestOfChunks(chunks: seq<Bytes>, i: nat) returns (rest: Bytes)
    requires i < |chunks|
    ensures Join(chunks) == Join(chunks[..i]) + chunks[i] + rest && Join(chunks[..i + 1]) == Join(chunks[..i]) + chunks[i]
  {
    rest := RestOfJoin([], chunks, i);
    assert [] + Join(chunks) == Join(chunks) && [] + Join(chunks[..i]) == Join(chunks[..i]);
    JoinSnoc(chunks[..i], chunks[i]);
    assert chunks[..i + 1] == chunks[..i] + [chunks[i]];
  }

  /** The entity read so far is part of the entity. */
  lemma EntityGrows(codecs: seq<Codec>, upTo: Bytes, bytes: Bytes)
    requires AllHomomorphic(codecs) && upTo <= bytes
    ensures Whole(codecs, 0, bytes).Some? ==>
      Through(codecs, 0, upTo).Some? && Through(codecs, 0, upTo).value <= Whole(codecs, 0, bytes).value
  {
    if Whole(codecs, 0, bytes).Some? {
      WholeExtendsThrough(codecs, 0, bytes);
      ThroughGrows(codecs, 0, upTo, bytes);
    }
  }

  /** What every reading promises, put the other way round: two readings of the same bytes that finish
      agree, and a body that fits is read, however it is cut. */
  lemma ChunkingIrrelevant(codecs: seq<Codec>, gunzip: Codec, limits: Limits, bytes: Bytes,
                           r: Result<Body, ReadError>, q: Result<Body, ReadError>)
    requires Reads(codecs, gunzip, limits, bytes, r) && Reads(codecs, gunzip, limits, bytes, q)
    ensures r.Ok? && q.Ok? ==> r == q && r.value.received == |bytes|
    ensures r.Ok? ==> (r.value.storedCompressed <==> limits.sitemap && GZIP_MAGIC <= r.value.data)
    ensures Fits(codecs, gunzip, limits, bytes) ==> r == Ok(TheBody(codecs, gunzip, limits.sitemap, bytes).value)
  {
  }

  /** Within its limits, and at no point over the ratio. */
  ghost predicate Fits(codecs: seq<Codec>, gunzip: Codec, limits: Limits, bytes: Bytes) {
    var body := TheBody(codecs, gunzip, limits.sitemap, bytes);
    && body.Some? && body.value.received <= limits.maxBytes && body.value.decoded <= limits.maxBytes
    && forall n: nat :: n <= |bytes| ==> !OverRatio(limits, OutputAt(codecs, gunzip, limits.sitemap, bytes, n), n)
  }

  // ---------------------------------------------------------------- deflate

  datatype Window = ZlibWrapped | Raw

  /** Whether the bytes begin like a zlib header. */
  function WindowOf(data: Bytes): Window {
    if |data| >= 2 && data[0] as int % 16 == 8 && (data[0] as int * 256 + data[1] as int) % 31 == 0 then ZlibWrapped else Raw
  }

  /** A `deflate` decoder settles its window on the first chunk that is not empty. */
  function SettledWindow(chunks: seq<Bytes>): Window {
    if chunks == [] then Raw else if chunks[0] == [] then SettledWindow(chunks[1..]) else WindowOf(chunks[0])
  }

  function FirstChunk(chunks: seq<Bytes>): Bytes {
    if chunks == [] then [] else if chunks[0] == [] then FirstChunk(chunks[1..]) else chunks[0]
  }

  lemma {:induction false} FirstChunkFirst(chunks: seq<Bytes>)
    ensures FirstChunk(chunks) <= Join(chunks) && SettledWindow(chunks) == WindowOf(FirstChunk(chunks))
    ensures FirstChunk(chunks) == [] ==> Join(chunks) == []
  {
    if chunks != [] {
      FirstChunkFirst(chunks[1..]);
      assert chunks == [chunks[0]] + chunks[1..];
      JoinConcat([chunks[0]], chunks[1..]);
      JoinOne(chunks[0]);
    }
  }

  /** For `deflate` the chunks do matter: the window is the stream's own exactly when the first chunk
      holds the whole two-byte header, or there is no header to hold. */
  lemma DeflateExactlyWhen(chunks: seq<Bytes>)
    ensures SettledWindow(chunks) == WindowOf(Join(chunks)) <==>
      |FirstChunk(chunks)| >= 2 || WindowOf(Join(chunks)).Raw?
  {
    FirstChunkFirst(chunks);
    var first := FirstChunk(chunks);
    if |first| >= 2 { assert Join(chunks)[..2] == first[..2]; }
  }
}
