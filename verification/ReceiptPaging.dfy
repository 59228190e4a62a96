/** Listing receipts page by page: keyset paging in the order of commit time and id. */
module ReceiptPaging {
  import opened Common
  import opened Sorting

  datatype Receipt = Receipt(committedAt: int, id: int)

  datatype Page = Page(items: seq<Receipt>, nextAfter: Option<Receipt>)

  datatype PagingError = BadLimit

  const MAX_PAGE_SIZE := 1000

  function ReceiptLeq(a: Receipt, b: Receipt): bool {
    a.committedAt < b.committedAt || (a.committedAt == b.committedAt && a.id <= b.id)
  }

  /** Strictly after a cursor; everything is after none. */
  predicate After(after: Option<Receipt>, r: Receipt) {
    after.None? || r.committedAt > after.value.committedAt
    || (r.committedAt == after.value.committedAt && r.id > after.value.id)
  }

  function Remaining(db: set<Receipt>, after: Option<Receipt>): set<Receipt> { set r | r in db && After(after, r) }

  lemma ReceiptLeqOrders(db: set<Receipt>)
    ensures Orders(ReceiptLeq, db)
  {
  }

  ghost function Ordered(db: set<Receipt>, after: Option<Receipt>): seq<Receipt> {
    ReceiptLeqOrders(Remaining(db, after));
    Sort(ReceiptLeq, Remaining(db, after))
  }

  /** One page: one receipt more than asked for tells whether there is another page. */
  method ListReceipts(db: set<Receipt>, after: Option<Receipt>, limit: int) returns (r: Result<Page, PagingError>)
    ensures r.Err? <==> !(1 <= limit <= MAX_PAGE_SIZE)
    ensures r.Ok? ==> r.value == PageOf(db, after, limit)
  {
    if !(1 <= limit <= MAX_PAGE_SIZE) { return Err(BadLimit); }
    ReceiptLeqOrders(Remaining(db, after));
    var found := SortSet(ReceiptLeq, Remaining(db, after));
    var documents := if |found| > limit + 1 then found[..limit + 1] else found;
    var hasMore := |documents| > limit;
    var page := if hasMore then documents[..limit] else documents;
    assert hasMore ==> page == found[..limit];
    r := Ok(Page(page, if hasMore && page != [] then Some(page[|page| - 1]) else None));
  }

  ghost function PageOf(db: set<Receipt>, after: Option<Receipt>, limit: int): Page
    requires limit >= 1
  {
    var all := Ordered(db, after);
    if |all| > limit then Page(all[..limit], Some(all[limit - 1])) else Page(all, None)
  }

  // ---------------------------------------------------------------- following the cursor

  /** All items found by following the cursor, each page on the database as it is by then. */
  ghost function Walk(dbs: seq<set<Receipt>>, after: Option<Receipt>, limit: int): seq<Receipt>
    requires limit >= 1
  {
    if dbs == [] then []
    else
      var page := PageOf(dbs[0], after, limit);
      page.items + if page.nextAfter.None? then [] else Walk(dbs[1..], page.nextAfter, limit)
  }

  /** The cursor comes to an end within these pages. */
  ghost predicate Ends(dbs: seq<set<Receipt>>, after: Option<Receipt>, limit: int)
    requires limit >= 1
  {
    dbs != [] && (
      var page := PageOf(dbs[0], after, limit);
      page.nextAfter.None? || Ends(dbs[1..], page.nextAfter, limit))
  }

  /** Receipts are only ever added. */
  predicate Growing(dbs: seq<set<Receipt>>) { forall i, j :: 0 <= i < j < |dbs| ==> dbs[i] <= dbs[j] }

  lemma PageItems(db: set<Receipt>, after: Option<Receipt>, limit: int)
    requires limit >= 1
    ensures var page := PageOf(db, after, limit);
            && Ascending(ReceiptLeq, page.items)
            && (forall r :: r in page.items ==> r in db && After(after, r))
            && (forall r :: r in db && After(after, r) ==> r in page.items || (page.nextAfter.Some? && After(page.nextAfter, r)))
            && (page.nextAfter.Some? ==> |page.items| == limit && page.items[limit - 1] == page.nextAfter.value)
  {
    var all := Ordered(db, after);
    forall r | r in db && After(after, r) ensures r in PageOf(db, after, limit).items || (|all| > limit && After(Some(all[limit - 1]), r)) {
      assert r in all;
      var i :| 0 <= i < |all| && all[i] == r;
      if i >= limit {
        assert ReceiptLeq(all[limit - 1], all[i]) && all[limit - 1] != all[i];
      } else if |all| > limit {
        assert all[..limit][i] == r;
      }
    }
    if |all| > limit {
      forall r | r in all[..limit] ensures r in all {}
    }
  }

  /** The pages never repeat or reorder anything: together they ascend, and lie after the start. */
  lemma {:induction false} WalkAscends(dbs: seq<set<Receipt>>, after: Option<Receipt>, limit: int)
    requires limit >= 1
    ensures Ascending(ReceiptLeq, Walk(dbs, after, limit))
    ensures forall r :: r in Walk(dbs, after, limit) ==> After(after, r) && exists i :: 0 <= i < |dbs| && r in dbs[i]
  {
    if dbs != [] {
      var page := PageOf(dbs[0], after, limit);
      PageItems(dbs[0], after, limit);
      if page.nextAfter.Some? {
        var rest := Walk(dbs[1..], page.nextAfter, limit);
        WalkAscends(dbs[1..], page.nextAfter, limit);
        LinkAscending(page.items, rest, limit);
        forall r | r in rest ensures After(after, r) && exists i :: 0 <= i < |dbs| && r in dbs[i] {
          assert After(page.nextAfter, r) && After(after, page.items[limit - 1]);
          var i :| 0 <= i < |dbs[1..]| && r in dbs[1..][i];
          assert r in dbs[i + 1];
        }
      }
    }
  }

  lemma LinkAscending(first: seq<Receipt>, rest: seq<Receipt>, limit: int)
    requires Ascending(ReceiptLeq, first) && Ascending(ReceiptLeq, rest) && |first| == limit >= 1
    requires forall r :: r in rest ==> After(Some(first[limit - 1]), r)
    ensures Ascending(ReceiptLeq, first + rest)
  {
    forall i, j | 0 <= i < |first| && 0 <= j < |rest| ensures ReceiptLeq(first[i], rest[j]) && first[i] != rest[j] {
      assert rest[j] in rest;
      assert i < limit - 1 ==> ReceiptLeq(first[i], first[limit - 1]);
    }
  }

  /** Once the cursor ends, every receipt that was there at the start has been returned, exactly once,
      whatever was inserted between the pages. */
  lemma {:induction false} WalkIsComplete(dbs: seq<set<Receipt>>, after: Option<Receipt>, limit: int, r: Receipt)
    requires limit >= 1 && Growing(dbs) && Ends(dbs, after, limit)
    requires r in dbs[0] && After(after, r)
    ensures r in Walk(dbs, after, limit)
  {
    var page := PageOf(dbs[0], after, limit);
    PageItems(dbs[0], after, limit);
    if r !in page.items {
      assert r in dbs[1] by { assert dbs[0] <= dbs[1]; }
      assert forall i, j :: 0 <= i < j < |dbs[1..]| ==> dbs[1..][i] == dbs[i + 1] && dbs[1..][j] == dbs[j + 1];
      WalkIsComplete(dbs[1..], page.nextAfter, limit, r);
    }
  }

  /** The database unchanged over `n` pages. */
  function Still(db: set<Receipt>, n: nat): seq<set<Receipt>> { seq(n, _ => db) }

  lemma RemainingAfterPage(db: set<Receipt>, after: Option<Receipt>, limit: int)
    requires limit >= 1 && PageOf(db, after, limit).nextAfter.Some?
    ensures Remaining(db, PageOf(db, after, limit).nextAfter)
         == Remaining(db, after) - (set r | r in PageOf(db, after, limit).items)
  {
    PageItems(db, after, limit);
    var page := PageOf(db, after, limit);
    forall r | r in page.items ensures !After(page.nextAfter, r) {
      var i :| 0 <= i < limit && page.items[i] == r;
      assert i < limit - 1 ==> ReceiptLeq(page.items[i], page.items[limit - 1]);
    }
    forall r | r in db && After(page.nextAfter, r) ensures After(after, r) {
      assert After(after, page.items[limit - 1]);
    }
  }

  lemma FewerRemain(db: set<Receipt>, after: Option<Receipt>, limit: int)
    requires limit >= 1 && PageOf(db, after, limit).nextAfter.Some?
    ensures |Remaining(db, PageOf(db, after, limit).nextAfter)| == |Remaining(db, after)| - limit
  {
    PageItems(db, after, limit);
    RemainingAfterPage(db, after, limit);
    var items := set r | r in PageOf(db, after, limit).items;
    DistinctCount(PageOf(db, after, limit).items);
    assert items <= Remaining(db, after);
    assert |Remaining(db, after) - items| == |Remaining(db, after)| - |items|;
  }

  lemma {:induction false} DistinctCount(q: seq<Receipt>)
    requires Ascending(ReceiptLeq, q)
    ensures |set r | r in q| == |q|
  {
    if q != [] {
      var init, last := q[..|q| - 1], q[|q| - 1];
      DistinctCount(init);
      assert q == init + [last];
      assert (set r | r in q) == (set r | r in init) + {last};
      assert last !in init;
    }
  }

  /** On a database at rest the walk ends after as many pages as it takes, and the pages joined are the
      whole sorted list. */
  lemma {:induction false} StillWalkEnds(db: set<Receipt>, after: Option<Receipt>, limit: int, n: nat)
    requires limit >= 1 && n >= 1 && |Remaining(db, after)| <= n * limit
    ensures Ends(Still(db, n), after, limit)
    decreases n
  {
    if PageOf(db, after, limit).nextAfter.Some? {
      FewerRemain(db, after, limit);
      SortCount(db, after);
      MorePages(|Remaining(db, after)|, limit, n);
      StillWalkEnds(db, PageOf(db, after, limit).nextAfter, limit, n - 1);
      assert Still(db, n)[1..] == Still(db, n - 1);
    }
  }

  lemma MorePages(count: nat, limit: int, n: nat)
    requires count > limit >= 1 && count <= n * limit
    ensures n >= 2 && count - limit <= (n - 1) * limit
  {
    assert (n - 1) * limit == n * limit - limit;
  }

  lemma SortCount(db: set<Receipt>, after: Option<Receipt>)
    ensures |Ordered(db, after)| == |Remaining(db, after)|
  {
    DistinctCount(Ordered(db, after));
    assert (set r | r in Ordered(db, after)) == Remaining(db, after);
  }

  lemma StillWalkIsTheList(db: set<Receipt>, limit: int, n: nat)
    requires limit >= 1 && n >= 1 && |db| <= n * limit
    ensures Ends(Still(db, n), None, limit) && Walk(Still(db, n), None, limit) == Ordered(db, None)
  {
    assert Remaining(db, None) == db;
    StillWalkEnds(db, None, limit, n);
    var walk := Walk(Still(db, n), None, limit);
    WalkAscends(Still(db, n), None, limit);
    forall r ensures r in walk <==> r in db {
      if r in db { WalkIsComplete(Still(db, n), None, limit, r); }
    }
    ReceiptLeqOrders(db);
    AscendingIsSort(ReceiptLeq, db, walk);
  }
}
