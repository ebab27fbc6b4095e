/** Keyset paging over a changing set of ids: what following cursors from page to page shows,
    for any change of the set between fetches. */
module Keyset {
  import opened Prelude
  import opened Arrangement

  datatype Page = Page(ids: seq<nat>, cursor: Option<nat>, hasMore: bool)

  /** One extra row is fetched to find out whether there is a next page; the cursor is the
      last row shown. */
  function PageOf(rows: seq<nat>, limit: nat): Page {
    var hasMore := |rows| > limit;
    var shown := if hasMore then rows[..limit] else rows;
    Page(shown, if hasMore && shown != [] then Some(shown[|shown| - 1]) else None, hasMore)
  }

  /** A page is the rows up to the limit; it says that there are more, and gives its last row as
      cursor, exactly when rows were left out. */
  lemma PageExactly(rows: seq<nat>, limit: nat)
    requires limit >= 1
    ensures var p := PageOf(rows, limit);
            && p.ids <= rows && |p.ids| <= limit
            && (p.hasMore <==> p.ids != rows)
            && (p.hasMore ==> |p.ids| == limit)
            && (p.cursor.Some? <==> p.hasMore)
            && (p.cursor.Some? ==> p.ids != [] && p.cursor.value == p.ids[|p.ids| - 1])
  {
  }

  /** At each fetch the client picks a page size; `wanted` is what the request matches in the
      table as it is at that moment. */
  datatype Fetch = Fetch(wanted: set<nat>, limit: nat)

  function ById(): (nat, nat) -> bool {
    (x, y) => x < y
  }

  ghost predicate Ascending(s: seq<nat>) {
    forall i, j :: 0 <= i < j < |s| ==> s[i] < s[j]
  }

  predicate IsBeyond(after: Option<nat>, id: nat) {
    after.Some? ==> after.value < id
  }

  function Beyond(after: Option<nat>, wanted: set<nat>): set<nat> {
    set id | id in wanted && IsBeyond(after, id)
  }

  ghost function Rows(after: Option<nat>, wanted: set<nat>): (r: seq<nat>)
    ensures Ascending(r) && Elements(r) == Beyond(after, wanted)
  {
    ArrangeFacts(Beyond(after, wanted), ById());
    Arrange(Beyond(after, wanted), ById())
  }

  /** The last page announced no more. */
  predicate Finished(pages: seq<Page>) {
    pages != [] && !pages[|pages| - 1].hasMore
  }

  function Ids(pages: seq<Page>): seq<nat> {
    if pages == [] then [] else pages[0].ids + Ids(pages[1..])
  }

  /** What one page shows: wanted ids past the cursor, in order; and everything wanted that it
      leaves out lies past its own cursor. */
  ghost predicate GoodPage(after: Option<nat>, f: Fetch, p: Page) {
    && Ascending(p.ids)
    && (forall id :: id in p.ids ==> id in f.wanted && IsBeyond(after, id))
    && (p.hasMore ==> |p.ids| == f.limit >= 1 && p.cursor == Some(p.ids[f.limit - 1]))
    && (forall id :: id in f.wanted && IsBeyond(after, id) ==>
          id in p.ids || (p.hasMore && p.cursor.value < id))
  }

  /** A page cut from the rows past the cursor, one row more than the limit, is good. */
  lemma WindowIsGood(after: Option<nat>, f: Fetch, rows: seq<nat>)
    requires f.limit >= 1 && Ascending(rows) && Elements(rows) == Beyond(after, f.wanted)
    ensures GoodPage(after, f, PageOf(Window(rows, 0, f.limit + 1), f.limit))
  {
    var p := PageOf(Window(rows, 0, f.limit + 1), f.limit);
    assert p.ids == rows[..|p.ids|];
    forall id | id in p.ids
      ensures id in f.wanted && IsBeyond(after, id)
    {
      assert id in Elements(rows);
    }
    forall id | id in f.wanted && IsBeyond(after, id)
      ensures id in p.ids || (p.hasMore && p.cursor.value < id)
    {
      assert id in Elements(rows);
      var k :| 0 <= k < |rows| && rows[k] == id;
      if k < |p.ids| {
        assert p.ids[k] == id;
      } else {
        assert rows[f.limit - 1] < rows[k];
      }
    }
  }

  /** The cursor a page is fetched with: the one the page before handed out. */
  function CursorFor(pages: seq<Page>, i: nat): Option<nat>
    requires i <= |pages|
  {
    if i == 0 then None else pages[i - 1].cursor
  }

  /** A session follows cursors as long as there is more. */
  ghost predicate IsSession(fetches: seq<Fetch>, pages: seq<Page>) {
    |pages| == |fetches| &&
    forall i :: 0 <= i < |pages| ==>
      GoodPage(CursorFor(pages, i), fetches[i], pages[i]) && (i < |pages| - 1 ==> pages[i].hasMore)
  }

  /** The rest of a session, told from a cursor on. */
  ghost predicate GoodSession(after: Option<nat>, fetches: seq<Fetch>, pages: seq<Page>)
    decreases |pages|
  {
    |pages| == |fetches| &&
    (pages != [] ==>
      && GoodPage(after, fetches[0], pages[0])
      && (|pages| > 1 ==> pages[0].hasMore)
      && GoodSession(pages[0].cursor, fetches[1..], pages[1..]))
  }

  lemma {:induction false} SuffixIsGood(fetches: seq<Fetch>, pages: seq<Page>, k: nat)
    requires IsSession(fetches, pages) && k <= |pages|
    ensures GoodSession(CursorFor(pages, k), fetches[k..], pages[k..])
    decreases |pages| - k
  {
    if k < |pages| {
      SuffixIsGood(fetches, pages, k + 1);
      assert pages[k..][1..] == pages[k + 1..] && fetches[k..][1..] == fetches[k + 1..];
      assert GoodPage(CursorFor(pages, k), fetches[k], pages[k]);
    }
  }

  lemma {:induction false} SessionIsGood(fetches: seq<Fetch>, pages: seq<Page>)
    requires IsSession(fetches, pages)
    ensures GoodSession(None, fetches, pages)
  {
    SuffixIsGood(fetches, pages, 0);
    assert pages[0..] == pages && fetches[0..] == fetches;
  }

  /** Ids shown by a session lie past the cursor it started from. */
  lemma {:induction false} SessionIsBeyond(after: Option<nat>, fetches: seq<Fetch>, pages: seq<Page>, id: nat)
    requires GoodSession(after, fetches, pages) && id in Ids(pages)
    ensures IsBeyond(after, id)
    decreases |pages|
  {
    var p := pages[0];
    if id !in p.ids {
      SessionIsBeyond(p.cursor, fetches[1..], pages[1..], id);
      assert p.ids[fetches[0].limit - 1] in p.ids;
    }
  }

  /** Whatever happens to the table between fetches, ids come back strictly increasing, so no
      row is ever shown twice. */
  lemma {:induction false} SessionAscends(after: Option<nat>, fetches: seq<Fetch>, pages: seq<Page>)
    requires GoodSession(after, fetches, pages)
    ensures Ascending(Ids(pages))
    decreases |pages|
  {
    if pages != [] {
      var p, rest := pages[0], Ids(pages[1..]);
      SessionAscends(p.cursor, fetches[1..], pages[1..]);
      forall id | id in rest
        ensures p.hasMore && p.ids[|p.ids| - 1] < id
      {
        SessionIsBeyond(p.cursor, fetches[1..], pages[1..], id);
      }
      AscendingJoin(p.ids, rest);
    }
  }

  lemma AscendingJoin(a: seq<nat>, b: seq<nat>)
    requires Ascending(a) && Ascending(b)
    requires forall id :: id in b ==> a != [] && a[|a| - 1] < id
    ensures Ascending(a + b)
  {
    forall i, j | 0 <= i < j < |a + b|
      ensures (a + b)[i] < (a + b)[j]
    {
      if i < |a| <= j {
        assert b[j - |a|] in b;
        assert i < |a| - 1 ==> a[i] < a[|a| - 1];
      }
    }
  }

  /** Every row shown was wanted at the moment its page was fetched. */
  lemma {:induction false} SessionShowsWanted(after: Option<nat>, fetches: seq<Fetch>, pages: seq<Page>, i: nat,
                                              id: nat)
    requires GoodSession(after, fetches, pages)
    requires i < |pages| && id in pages[i].ids
    ensures id in fetches[i].wanted
    decreases |pages|
  {
    if i > 0 {
      assert pages[1..][i - 1] == pages[i] && fetches[1..][i - 1] == fetches[i];
      SessionShowsWanted(pages[0].cursor, fetches[1..], pages[1..], i - 1, id);
    }
  }

  /** A row past the starting cursor and wanted at every fetch is shown by a session that ends. */
  lemma {:induction false} SessionMissesNothing(after: Option<nat>, fetches: seq<Fetch>, pages: seq<Page>, id: nat)
    requires GoodSession(after, fetches, pages) && Finished(pages)
    requires forall i :: 0 <= i < |fetches| ==> id in fetches[i].wanted
    requires IsBeyond(after, id)
    ensures id in Ids(pages)
    decreases |pages|
  {
    var p := pages[0];
    if id !in p.ids {
      var later := fetches[1..];
      assert forall i :: 0 <= i < |later| ==> later[i] == fetches[i + 1];
      assert pages[1..] != [] && pages[1..][|pages[1..]| - 1] == pages[|pages| - 1];
      SessionMissesNothing(p.cursor, later, pages[1..], id);
    }
  }

  ghost predicate ShownOnce(ids: seq<nat>, id: nat) {
    exists k :: 0 <= k < |ids| && ids[k] == id && forall j :: 0 <= j < |ids| && j != k ==> ids[j] != id
  }

  /** Main result: a row that stays wanted is shown exactly once by a session that ends, under
      any interleaving of inserts, updates and deletes with the fetches. */
  lemma {:induction false} ExactlyOnce(fetches: seq<Fetch>, pages: seq<Page>, id: nat)
    requires IsSession(fetches, pages) && Finished(pages)
    requires forall i :: 0 <= i < |fetches| ==> id in fetches[i].wanted
    ensures ShownOnce(Ids(pages), id)
  {
    SessionIsGood(fetches, pages);
    SessionMissesNothing(None, fetches, pages, id);
    SessionAscends(None, fetches, pages);
    var ids := Ids(pages);
    var k :| 0 <= k < |ids| && ids[k] == id;
    forall j | 0 <= j < |ids| && j != k
      ensures ids[j] != id
    {
      assert if j < k then ids[j] < ids[k] else ids[k] < ids[j];
    }
  }

  // ----- A set nobody changes ----------------------------------------------

  ghost predicate AllSee(fetches: seq<Fetch>, wanted: set<nat>) {
    forall i :: 0 <= i < |fetches| ==> fetches[i].wanted == wanted
  }

  ghost predicate SameLimit(fetches: seq<Fetch>, limit: nat) {
    forall i :: 0 <= i < |fetches| ==> fetches[i].limit == limit
  }

  lemma {:induction false} IdIsOnSomePage(pages: seq<Page>, id: nat) returns (i: nat)
    requires id in Ids(pages)
    ensures i < |pages| && id in pages[i].ids
  {
    if id in pages[0].ids {
      i := 0;
    } else {
      var k := IdIsOnSomePage(pages[1..], id);
      assert pages[1..][k] == pages[k + 1];
      i := k + 1;
    }
  }

  lemma {:induction false} StillShowsOnlyWanted(fetches: seq<Fetch>, pages: seq<Page>, wanted: set<nat>)
    requires GoodSession(None, fetches, pages) && AllSee(fetches, wanted)
    ensures Elements(Ids(pages)) <= wanted
  {
    forall id | id in Elements(Ids(pages))
      ensures id in wanted
    {
      var i := IdIsOnSomePage(pages, id);
      SessionShowsWanted(None, fetches, pages, i, id);
    }
  }

  /** Ending on an unchanging table, a session has shown the whole listing, in order. */
  lemma {:induction false} StillSessionIsListing(fetches: seq<Fetch>, pages: seq<Page>, wanted: set<nat>)
    requires IsSession(fetches, pages) && AllSee(fetches, wanted) && Finished(pages)
    ensures Ids(pages) == Rows(None, wanted)
  {
    var ids := Ids(pages);
    SessionIsGood(fetches, pages);
    SessionAscends(None, fetches, pages);
    StillShowsOnlyWanted(fetches, pages, wanted);
    forall id | id in wanted
      ensures id in Elements(ids)
    {
      SessionMissesNothing(None, fetches, pages, id);
    }
    assert Beyond(None, wanted) == wanted;
    ArrangementUnique(ids, Rows(None, wanted), wanted, ById());
  }

  /** Every page before the last is full. */
  lemma {:induction false} PagesAreFull(after: Option<nat>, fetches: seq<Fetch>, pages: seq<Page>, limit: nat)
    requires GoodSession(after, fetches, pages) && SameLimit(fetches, limit)
    ensures pages != [] ==> |Ids(pages)| >= (|pages| - 1) * limit
    decreases |pages|
  {
    if |pages| > 1 {
      var later := fetches[1..];
      assert forall i :: 0 <= i < |later| ==> later[i] == fetches[i + 1];
      PagesAreFull(pages[0].cursor, later, pages[1..], limit);
      assert (|pages| - 1) * limit == (|pages| - 2) * limit + limit;
    }
  }

  /** On an unchanging table cursors cannot be followed forever. */
  lemma StillSessionIsBounded(fetches: seq<Fetch>, pages: seq<Page>, wanted: set<nat>, limit: nat)
    requires IsSession(fetches, pages) && AllSee(fetches, wanted) && SameLimit(fetches, limit)
    ensures pages != [] ==> (|pages| - 1) * limit <= |wanted|
  {
    SessionIsGood(fetches, pages);
    PagesAreFull(None, fetches, pages, limit);
    StillShowsOnlyWanted(fetches, pages, wanted);
    SessionAscends(None, fetches, pages);
    AscendingCardinality(Ids(pages));
    SubsetCardinality(Elements(Ids(pages)), wanted);
  }

  lemma {:induction false} AscendingCardinality(ids: seq<nat>)
    requires Ascending(ids)
    ensures |Elements(ids)| == |ids|
  {
    if ids != [] {
      var n := |ids| - 1;
      AscendingCardinality(ids[..n]);
      assert Elements(ids) == Elements(ids[..n]) + {ids[n]};
      assert ids[n] !in ids[..n];
    }
  }

  lemma {:induction false} SubsetCardinality(a: set<nat>, b: set<nat>)
    requires a <= b
    ensures |a| <= |b|
  {
    if a != {} {
      var x :| x in a;
      SubsetCardinality(a - {x}, b - {x});
    }
  }
}
