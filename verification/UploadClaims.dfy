/** The table of upload claims: leases with a fencing generation, one row per object key. */
module UploadClaims {
  import opened Common
  import opened Sorting

  type Key = string
  type Digest = string

  datatype Status = Leased | Released | Expired | Committed

  /** What a committed claim points at. */
  datatype Reference = Reference(sha256: Digest, sizeBytes: nat, uri: string)

  datatype Claim = Claim(owner: string, status: Status, generation: nat, acquiredAt: int, leaseExpiresAt: int,
                         releasedAt: Option<int>, committedAt: Option<int>, reference: Option<Reference>,
                         mediaType: Option<string>)

  datatype ClaimError = StaleClaim | NotFound | InvalidArgument

  function Row(rows: map<Key, Claim>, key: Key): Option<Claim> {
    if key in rows then Some(rows[key]) else None
  }

  predicate Alive(claim: Claim, now: int) { claim.status.Leased? && claim.leaseExpiresAt > now }

  predicate HeldBy(claim: Claim, owner: string, generation: nat) {
    claim.status.Leased? && claim.owner == owner && claim.generation == generation
  }

  /** The claim after an acquire: a new row, an extension of the owner's own live lease, or a
      takeover with the next generation. */
  function Acquired(row: Option<Claim>, owner: string, lease: nat, mediaType: Option<string>, now: int)
    : Result<Claim, ClaimError>
  {
    if lease < 1 then Err(InvalidArgument)
    else if row.None? then Ok(Claim(owner, Leased, 1, now, now + lease, None, None, None, mediaType))
    else
      var claim := row.value;
      var media := if mediaType.Some? then mediaType else claim.mediaType;
      if claim.status.Committed? then Err(StaleClaim)
      else if Alive(claim, now) then
        if claim.owner != owner then Err(StaleClaim)
        else Ok(claim.(leaseExpiresAt := now + lease, mediaType := media))
      else
        Ok(claim.(owner := owner, status := Leased, generation := claim.generation + 1, acquiredAt := now,
                  leaseExpiresAt := now + lease, releasedAt := None, mediaType := media))
  }

  /** The fenced commit, and its idempotent repetition. */
  function CommittedAs(row: Option<Claim>, owner: string, generation: nat, reference: Reference,
                       mediaType: Option<string>, now: int): Result<Claim, ClaimError>
  {
    if row.None? then Err(NotFound)
    else
      var claim := row.value;
      if HeldBy(claim, owner, generation) && Alive(claim, now) then
        Ok(claim.(status := Committed, committedAt := Some(now), reference := Some(reference),
                  mediaType := if mediaType.Some? then mediaType else claim.mediaType))
      else if claim.status.Committed? && claim.generation == generation && claim.owner == owner
              && claim.reference.Some? && claim.reference.value.sha256 == reference.sha256 then
        Ok(claim)
      else Err(StaleClaim)
  }

  function ReleasedAs(claim: Claim, owner: string, generation: nat, now: int): Claim {
    if HeldBy(claim, owner, generation) then claim.(status := Released, releasedAt := Some(now)) else claim
  }

  predicate Stale(claim: Claim, now: int) { claim.status.Leased? && claim.leaseExpiresAt <= now }

  predicate Orphan(key: Key, claim: Claim, deadline: int, referenced: set<Key>) {
    !claim.status.Committed? && claim.leaseExpiresAt <= deadline && key !in referenced
  }

  // ---------------------------------------------------------------- what one row goes through

  /** The next state of a row under any operation of the table. */
  ghost predicate RowStep(before: Claim, after: Claim, now: int) {
    || after == before
    || (exists owner, lease, media :: Acquired(Some(before), owner, lease, media, now) == Ok(after))
    || (exists owner, generation, reference, media ::
          CommittedAs(Some(before), owner, generation, reference, media, now) == Ok(after))
    || (exists owner, generation :: ReleasedAs(before, owner, generation, now) == after)
    || (Stale(before, now) && after == before.(status := Expired))
  }

  /** One operation never lowers the generation, raises it on every change of owner and on every
      new lease after a lost one, and leaves a committed row as it is. */
  lemma FencingStep(before: Claim, after: Claim, now: int)
    requires RowStep(before, after, now)
    ensures before.generation <= after.generation
    ensures before.owner != after.owner ==> before.generation < after.generation
    ensures after.status.Leased? && !Alive(before, now) && after != before ==> before.generation < after.generation
    ensures before.status.Committed? ==> after == before
    ensures after.status.Committed? && !before.status.Committed? ==>
      Alive(before, now) && after.owner == before.owner && after.generation == before.generation
  {
  }

  /** A sequence of row states, each one operation after the other at some time. */
  ghost predicate RowRun(run: seq<Claim>, times: seq<int>) {
    |times| == |run| && forall i :: 0 < i < |run| ==> RowStep(run[i - 1], run[i], times[i])
  }

  /** Over a whole run generations never fall, an owner change raises them, and the first committed
      state is final, so at most one reference is ever committed for a key. */
  lemma {:induction false} FencingRun(run: seq<Claim>, times: seq<int>, i: nat, j: nat)
    requires RowRun(run, times) && i <= j < |run|
    ensures run[i].generation <= run[j].generation
    ensures run[i].owner != run[j].owner ==> run[i].generation < run[j].generation
    ensures run[i].status.Committed? ==> run[j] == run[i]
    decreases j - i
  {
    if i < j {
      FencingRun(run, times, i, j - 1);
      FencingStep(run[j - 1], run[j], times[j]);
    }
  }

  /** A commit needs the current generation, its owner and a live lease, or repeats the same one. */
  lemma CommitNeedsCurrentLease(row: Option<Claim>, owner: string, generation: nat, reference: Reference,
                                mediaType: Option<string>, now: int)
    ensures CommittedAs(row, owner, generation, reference, mediaType, now).Ok? <==>
      && row.Some? && row.value.owner == owner && row.value.generation == generation
      && (Alive(row.value, now)
          || (row.value.status.Committed? && row.value.reference.Some?
              && row.value.reference.value.sha256 == reference.sha256))
  {
  }

  /** An acquire succeeds exactly on a key that is not committed and is free or the owner's own. */
  lemma AcquireExactlyWhen(row: Option<Claim>, owner: string, lease: nat, mediaType: Option<string>, now: int)
    ensures Acquired(row, owner, lease, mediaType, now).Ok? <==>
      && lease >= 1 && (row.Some? ==> !row.value.status.Committed?)
      && (row.Some? && row.value.status.Leased? && row.value.leaseExpiresAt > now ==> row.value.owner == owner)
    ensures Acquired(row, owner, lease, mediaType, now).Ok? ==>
      var claim := Acquired(row, owner, lease, mediaType, now).value;
      && claim.owner == owner && claim.status.Leased? && claim.leaseExpiresAt == now + lease
      && claim.generation == (if row.None? then 1
                              else if row.value.status.Leased? && row.value.leaseExpiresAt > now then row.value.generation
                              else row.value.generation + 1)
  {
  }

  /** A released key is free for anybody at once, under the next generation. */
  lemma ReleasedIsFree(claim: Claim, owner: string, lease: nat, mediaType: Option<string>, now: int)
    requires claim.status.Released? && lease >= 1
    ensures var r := Acquired(Some(claim), owner, lease, mediaType, now);
            && r.Ok? && r.value.owner == owner && r.value.status.Leased? && r.value.generation == claim.generation + 1
            && r.value.leaseExpiresAt == now + lease && r.value.releasedAt == None
  {
  }

  // ---------------------------------------------------------------- the table

  class ClaimTable {
    var rows: map<Key, Claim>

    constructor ()
      ensures rows == map[]
    {
      rows := map[];
    }

    method AcquireUploadClaim(key: Key, owner: string, lease: nat, mediaType: Option<string>, now: int)
      returns (r: Result<Claim, ClaimError>)
      modifies this
      ensures r == Acquired(old(Row(rows, key)), owner, lease, mediaType, now)
      ensures rows == if r.Ok? then old(rows)[key := r.value] else old(rows)
    {
      if lease < 1 {
        return Err(InvalidArgument);
      }
      var expires := now + lease;
      if key !in rows {
        var inserted := Claim(owner, Leased, 1, now, expires, None, None, None, mediaType);
        rows := rows[key := inserted];
        return Ok(inserted);
      }
      var claim := rows[key];
      if claim.status.Committed? {
        return Err(StaleClaim);
      }
      var alive := claim.status.Leased? && claim.leaseExpiresAt > now;
      if alive && claim.owner != owner {
        return Err(StaleClaim);
      }
      if !alive {
        claim := claim.(generation := claim.generation + 1, owner := owner, acquiredAt := now,
                        releasedAt := None, status := Leased);
      }
      if mediaType.Some? {
        claim := claim.(mediaType := mediaType);
      }
      claim := claim.(leaseExpiresAt := expires);
      rows := rows[key := claim];
      r := Ok(claim);
    }

    method CommitReference(key: Key, generation: nat, owner: string, reference: Reference,
                           mediaType: Option<string>, now: int)
      returns (r: Result<Claim, ClaimError>)
      modifies this
      ensures r == CommittedAs(old(Row(rows, key)), owner, generation, reference, mediaType, now)
      ensures rows == if r.Ok? then old(rows)[key := r.value] else old(rows)
    {
      if key in rows && rows[key].owner == owner && rows[key].generation == generation
         && rows[key].status.Leased? && rows[key].leaseExpiresAt > now {
        var claim := rows[key];
        claim := claim.(status := Committed, committedAt := Some(now), reference := Some(reference),
                        mediaType := if mediaType.Some? then mediaType else claim.mediaType);
        rows := rows[key := claim];
        return Ok(claim);
      }
      if key !in rows {
        return Err(NotFound);
      }
      var existing := rows[key];
      if existing.status.Committed? && existing.generation == generation && existing.owner == owner
         && existing.reference.Some? && existing.reference.value.sha256 == reference.sha256 {
        assert rows == rows[key := existing];
        return Ok(existing);
      }
      r := Err(StaleClaim);
    }

    /** Gives a claim back; a committed or foreign claim is left alone. */
    method ReleaseClaim(key: Key, generation: nat, owner: string, now: int) returns (r: Option<Claim>)
      modifies this
      ensures rows == if key in old(rows) then old(rows)[key := ReleasedAs(old(rows)[key], owner, generation, now)]
                      else old(rows)
      ensures r == if key in rows && (rows[key].status.Released? || rows[key].status.Committed?)
                   then Some(rows[key]) else None
      ensures var held := key in old(rows) && old(rows)[key].status.Leased?
                          && old(rows)[key].owner == owner && old(rows)[key].generation == generation;
              if held then
                && rows == old(rows)[key := old(rows)[key].(status := Released, releasedAt := Some(now))]
                && r == Some(rows[key])
              else rows == old(rows)
    {
      if key !in rows {
        return None;
      }
      if HeldBy(rows[key], owner, generation) {
        rows := rows[key := rows[key].(status := Released, releasedAt := Some(now))];
        return Some(rows[key]);
      }
      assert rows == rows[key := rows[key]];
      r := if rows[key].status.Released? || rows[key].status.Committed? then Some(rows[key]) else None;
    }

    /** Marks up to `limit` overdue leases as expired, the longest overdue first; rows locked by
        other transactions are passed over. */
    method ExpireClaims(limit: nat, locked: set<Key>, now: int) returns (expired: seq<Key>)
      modifies this
      ensures forall k :: k in expired ==> k in old(rows) && k !in locked && Stale(old(rows)[k], now)
      ensures forall i, j :: 0 <= i < j < |expired| ==>
        expired[i] != expired[j] && old(rows)[expired[i]].leaseExpiresAt <= old(rows)[expired[j]].leaseExpiresAt
      ensures |expired| <= limit
      ensures forall k :: k in old(rows) && k !in locked && Stale(old(rows)[k], now) && k !in expired ==>
        |expired| == limit && forall e :: e in expired ==> old(rows)[e].leaseExpiresAt <= old(rows)[k].leaseExpiresAt
      ensures rows == map k | k in old(rows) ::
        if k in expired then old(rows)[k].(status := Expired) else old(rows)[k]
    {
      var stale := set k | k in rows && k !in locked && Stale(rows[k], now);
      expired := TakeEarliest(rows, stale, limit);
      rows := map k | k in rows :: if k in expired then rows[k].(status := Expired) else rows[k];
    }

    /** Keys a sweeper may try to delete: no reference, and a lease that ended before the grace period. */
    method ListOrphanCandidates(grace: int, limit: nat, referenced: set<Key>, now: int)
      returns (r: Result<seq<Key>, ClaimError>)
      ensures r.Err? <==> grace < 0
      ensures r.Ok? ==> r.value == FirstOf(limit, InLeaseOrder(rows, Orphans(rows, now - grace, referenced)))
    {
      if grace < 0 {
        return Err(InvalidArgument);
      }
      var candidates := Orphans(rows, now - grace, referenced);
      var sorted := SortByLease(rows, candidates);
      r := Ok(FirstOf(limit, sorted));
    }
  }

  function Orphans(rows: map<Key, Claim>, deadline: int, referenced: set<Key>): set<Key> {
    set k | k in rows && Orphan(k, rows[k], deadline, referenced)
  }

  function FirstOf<T>(limit: nat, items: seq<T>): seq<T> { if limit < |items| then items[..limit] else items }

  predicate TextLeq(a: string, b: string) {
    a == "" || (b != "" && (a[0] < b[0] || (a[0] == b[0] && TextLeq(a[1..], b[1..]))))
  }

  /** By the end of the lease, then by the key. */
  predicate ByLease(rows: map<Key, Claim>, a: Key, b: Key) {
    if a in rows && b in rows && rows[a].leaseExpiresAt != rows[b].leaseExpiresAt then rows[a].leaseExpiresAt < rows[b].leaseExpiresAt
    else TextLeq(a, b)
  }

  function LeaseOrder(rows: map<Key, Claim>): (Key, Key) -> bool { (a, b) => ByLease(rows, a, b) }

  lemma {:induction false} TextTotal(a: string, b: string)
    ensures (TextLeq(a, b) || TextLeq(b, a)) && (TextLeq(a, b) && TextLeq(b, a) ==> a == b)
  {
    if a != "" && b != "" && a[0] == b[0] {
      TextTotal(a[1..], b[1..]);
      assert a == [a[0]] + a[1..] && b == [b[0]] + b[1..];
    }
  }

  lemma {:induction false} TextTransitive(a: string, b: string, c: string)
    requires TextLeq(a, b) && TextLeq(b, c)
    ensures TextLeq(a, c)
  {
    if a != "" && a[0] == b[0] && b[0] == c[0] { TextTransitive(a[1..], b[1..], c[1..]); }
  }

  lemma LeaseOrders(rows: map<Key, Claim>, keys: set<Key>)
    requires keys <= rows.Keys
    ensures Orders(LeaseOrder(rows), keys)
  {
    forall a, b | a in keys && b in keys
      ensures ByLease(rows, a, b) || ByLease(rows, b, a)
      ensures ByLease(rows, a, b) && ByLease(rows, b, a) ==> a == b
    {
      TextTotal(a, b);
    }
    forall a, b, c | a in keys && b in keys && c in keys && ByLease(rows, a, b) && ByLease(rows, b, c) ensures ByLease(rows, a, c) {
      if TextLeq(a, b) && TextLeq(b, c) { TextTransitive(a, b, c); }
    }
  }

  ghost function InLeaseOrder(rows: map<Key, Claim>, keys: set<Key>): seq<Key>
    requires keys <= rows.Keys
  {
    LeaseOrders(rows, keys);
    Sort(LeaseOrder(rows), keys)
  }

  method SortByLease(rows: map<Key, Claim>, keys: set<Key>) returns (sorted: seq<Key>)
    requires keys <= rows.Keys
    ensures sorted == InLeaseOrder(rows, keys)
  {
    LeaseOrders(rows, keys);
    sorted := SortSet(LeaseOrder(rows), keys);
  }

  /** The first `limit` keys by the end of their lease. */
  method TakeEarliest(rows: map<Key, Claim>, keys: set<Key>, limit: nat) returns (taken: seq<Key>)
    requires forall k :: k in keys ==> k in rows
    ensures |taken| <= limit && forall k :: k in taken ==> k in keys
    ensures forall i, j :: 0 <= i < j < |taken| ==>
      taken[i] != taken[j] && rows[taken[i]].leaseExpiresAt <= rows[taken[j]].leaseExpiresAt
    ensures forall k :: k in keys && k !in taken ==>
      |taken| == limit && forall e :: e in taken ==> rows[e].leaseExpiresAt <= rows[k].leaseExpiresAt
  {
    taken := [];
    var left := keys;
    while left != {} && |taken| < limit
      invariant |taken| <= limit && left <= keys
      invariant forall k :: k in keys <==> k in left || k in taken
      invariant forall k :: k in taken ==> k !in left
      invariant forall i, j :: 0 <= i < j < |taken| ==>
        taken[i] != taken[j] && rows[taken[i]].leaseExpiresAt <= rows[taken[j]].leaseExpiresAt
      invariant forall e, k :: e in taken && k in left ==> rows[e].leaseExpiresAt <= rows[k].leaseExpiresAt
      decreases left
    {
      EarliestExists(rows, left);
      var k :| k in left && forall j :: j in left ==> rows[k].leaseExpiresAt <= rows[j].leaseExpiresAt;
      taken := taken + [k];
      left := left - {k};
    }
  }

  lemma {:induction false} EarliestExists(rows: map<Key, Claim>, keys: set<Key>)
    requires keys != {} && forall k :: k in keys ==> k in rows
    ensures exists k :: k in keys && forall j :: j in keys ==> rows[k].leaseExpiresAt <= rows[j].leaseExpiresAt
    decreases keys
  {
    var k :| k in keys;
    if keys == {k} {
      assert forall j :: j in keys ==> j == k;
    } else {
      EarliestExists(rows, keys - {k});
      var m :| m in keys - {k} && forall j :: j in keys - {k} ==> rows[m].leaseExpiresAt <= rows[j].leaseExpiresAt;
      var least := if rows[k].leaseExpiresAt <= rows[m].leaseExpiresAt then k else m;
      assert least in keys && forall j :: j in keys ==> rows[least].leaseExpiresAt <= rows[j].leaseExpiresAt;
    }
  }
}
