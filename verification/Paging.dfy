/** Keyset paging through the generated list helper: the answers a client gets by following
    cursors while other requests change the table, and why a sort breaks them. */
module Paging {
  import opened Prelude
  import opened Values
  import opened Schema
  import opened OrderBy
  import opened Arrangement
  import opened ListQuery
  import opened Keyset

  /** A list request whose typed filter values are known. */
  datatype ListRequest = ListRequest(r: Resource, ep: EndpointSpec, parsed: seq<Value>, req: Request) {
    ghost predicate Valid() {
      FieldsKnown(r, ep) && |parsed| == |ep.filters|
    }
  }

  /** The table as a fetch finds it, and the page size the client asks for. */
  datatype Visit = Visit(table: Table, limit: nat)

  ghost predicate ValidVisits(q: ListRequest, visits: seq<Visit>) {
    forall i :: 0 <= i < |visits| ==> visits[i].limit >= 1 && Keyed(PrimaryKey(q.r), visits[i].table)
  }

  /** A table the resource can have: rows stored under their keys, every column of its type. */
  ghost predicate TypedTable(r: Resource, t: Table) {
    Keyed(PrimaryKey(r), t) && forall id :: id in t ==> TypedRow(r.schema, t[id])
  }

  ghost predicate TypedVisits(q: ListRequest, visits: seq<Visit>) {
    forall i :: 0 <= i < |visits| ==> TypedTable(q.r, visits[i].table)
  }

  ghost function Wants(d: Dialect, q: ListRequest, t: Table): set<nat>
    requires q.Valid()
  {
    WantedAfter(d, q.r, q.ep, q.parsed, q.req, None, t)
  }

  /** The cursor branch of the list helper, as the statement it runs is proved to behave. */
  ghost function AnswerOf(d: Dialect, q: ListRequest, after: Option<nat>, v: Visit): Page
    requires q.Valid() && Keyed(PrimaryKey(q.r), v.table)
  {
    PageOf(Window(Listing(d, q.r, q.ep, q.parsed, q.req, after, v.table), 0, v.limit + 1), v.limit)
  }

  /** `pages` are the answers to following cursors, one visit after the other. */
  ghost predicate IsConversation(d: Dialect, q: ListRequest, visits: seq<Visit>, pages: seq<Page>)
    requires q.Valid() && ValidVisits(q, visits)
  {
    |pages| == |visits| && forall i :: 0 <= i < |pages| ==> Follows(d, q, visits, pages, i)
  }

  ghost predicate Follows(d: Dialect, q: ListRequest, visits: seq<Visit>, pages: seq<Page>, i: nat)
    requires q.Valid() && ValidVisits(q, visits) && i < |pages| == |visits|
  {
    pages[i] == AnswerOf(d, q, CursorFor(pages, i), visits[i]) && (i < |pages| - 1 ==> pages[i].hasMore)
  }

  // ----- When the requested order is key order -----------------------------

  /** No sort field that the endpoint declares is in effect. */
  predicate Unsorted(ep: EndpointSpec, sort: seq<SortField>) {
    forall s :: s in Kept(sort, |ep.sort|) ==> s.field !in ep.sort
  }

  /** A row that the table can hold and the request is about. */
  ghost predicate Match(d: Dialect, q: ListRequest, row: Row)
    requires q.Valid()
  {
    TypedRow(q.r.schema, row) && Wanted(d, q.r, q.ep, q.parsed, q.req, row)
  }

  predicate ListedBefore(d: Dialect, q: ListRequest, a: Row, b: Row)
    requires FieldsKnown(q.r, q.ep)
  {
    Then(RequestCompare(d, q.r.schema, q.ep.sort, Kept(q.req.sort, |q.ep.sort|), a, b),
         PkCompare(d, PrimaryKey(q.r), a, b)) == Lt
  }

  /** Two rows the request is about, the one with the greater key listed first. */
  ghost predicate Inverted(d: Dialect, q: ListRequest, a: Row, b: Row)
    requires q.Valid()
  {
    var x, y := Col(a, PrimaryKey(q.r)), Col(b, PrimaryKey(q.r));
    && Match(d, q, a) && Match(d, q, b)
    && x.Uuid? && y.Uuid? && x.id > y.id
    && ListedBefore(d, q, a, b)
  }

  ghost predicate NeverInverted(d: Dialect, q: ListRequest)
    requires q.Valid()
  {
    forall a, b :: !Inverted(d, q, a, b)
  }

  /** Cursors can be trusted over these visits. */
  ghost predicate Orderly(d: Dialect, q: ListRequest, visits: seq<Visit>)
    requires q.Valid()
  {
    Unsorted(q.ep, q.req.sort) || (TypedVisits(q, visits) && NeverInverted(d, q))
  }

  /** The requested order of the wanted rows is the order of their keys. */
  ghost predicate KeyOrdered(d: Dialect, q: ListRequest, t: Table)
    requires q.Valid()
  {
    && Keyed(PrimaryKey(q.r), t)
    && forall x, y :: x in Wants(d, q, t) && y in Wants(d, q, t) ==> ListsById(d, q, t, x, y)
  }

  predicate ListsById(d: Dialect, q: ListRequest, t: Table, x: nat, y: nat)
    requires FieldsKnown(q.r, q.ep)
  {
    RequestedOrder(d, q.r, q.ep, q.req.sort, t)(x, y) <==> x < y
  }

  lemma {:induction false} NoSlotsNoOrder(d: Dialect, schema: IndexMap<FieldSchema>, declared: seq<string>,
                                          sort: seq<SortField>, a: Row, b: Row)
    requires forall f :: f in declared ==> f in schema.at
    requires forall s :: s in sort ==> s.field !in declared
    ensures RequestCompare(d, schema, declared, sort, a, b) == Eq
  {
    if sort != [] {
      assert sort[|sort| - 1] in sort;
      NoSlotsNoOrder(d, schema, declared, sort[..|sort| - 1], a, b);
    }
  }

  lemma UnsortedOrderIsById(d: Dialect, q: ListRequest, t: Table, x: nat, y: nat)
    requires q.Valid() && Keyed(PrimaryKey(q.r), t) && Unsorted(q.ep, q.req.sort) && x in t && y in t
    ensures ListsById(d, q, t, x, y)
  {
    NoSlotsNoOrder(d, q.r.schema, q.ep.sort, Kept(q.req.sort, |q.ep.sort|), t[x], t[y]);
  }

  lemma OrderOfRows(d: Dialect, q: ListRequest, t: Table, x: nat, y: nat)
    requires q.Valid() && x in t && y in t
    ensures RequestedOrder(d, q.r, q.ep, q.req.sort, t)(x, y) <==> ListedBefore(d, q, t[x], t[y])
  {
  }

  lemma WantedMatches(d: Dialect, q: ListRequest, t: Table, x: nat)
    requires q.Valid() && TypedTable(q.r, t) && x in Wants(d, q, t)
    ensures Match(d, q, t[x]) && Col(t[x], PrimaryKey(q.r)) == Uuid(x)
  {
  }

  lemma NotAgainstKeys(d: Dialect, q: ListRequest, t: Table, x: nat, y: nat)
    requires q.Valid() && TypedTable(q.r, t) && NeverInverted(d, q)
    requires x in Wants(d, q, t) && y in Wants(d, q, t) && x > y
    ensures !RequestedOrder(d, q.r, q.ep, q.req.sort, t)(x, y)
  {
    WantedMatches(d, q, t, x);
    WantedMatches(d, q, t, y);
    OrderOfRows(d, q, t, x, y);
    assert !Inverted(d, q, t[x], t[y]);
  }

  lemma NeverInvertedListsById(d: Dialect, q: ListRequest, t: Table, x: nat, y: nat)
    requires q.Valid() && TypedTable(q.r, t) && NeverInverted(d, q)
    requires x in Wants(d, q, t) && y in Wants(d, q, t)
    ensures ListsById(d, q, t, x, y)
  {
    RequestedIsTotal(d, q.r, q.ep, q.req.sort, t, {x, y});
    if x > y {
      NotAgainstKeys(d, q, t, x, y);
    } else if y > x {
      NotAgainstKeys(d, q, t, y, x);
    }
  }

  lemma OrderlyIsKeyOrdered(d: Dialect, q: ListRequest, visits: seq<Visit>, i: nat)
    requires q.Valid() && ValidVisits(q, visits) && Orderly(d, q, visits) && i < |visits|
    ensures KeyOrdered(d, q, visits[i].table)
  {
    var t := visits[i].table;
    if Unsorted(q.ep, q.req.sort) {
      forall x, y | x in Wants(d, q, t) && y in Wants(d, q, t) {
        UnsortedOrderIsById(d, q, t, x, y);
      }
    } else {
      forall x, y | x in Wants(d, q, t) && y in Wants(d, q, t) {
        NeverInvertedListsById(d, q, t, x, y);
      }
    }
  }

  // ----- Then pages go by id -----------------------------------------------

  lemma CursorIsIdBound(d: Dialect, q: ListRequest, after: Option<nat>, t: Table)
    requires q.Valid() && Keyed(PrimaryKey(q.r), t)
    ensures WantedAfter(d, q.r, q.ep, q.parsed, q.req, after, t) == Beyond(after, Wants(d, q, t))
  {
    forall id | id in t
      ensures AfterCursor(d, PrimaryKey(q.r), after, t[id]) <==> IsBeyond(after, id)
    {
    }
  }

  /** The listing is then the wanted ids past the cursor, in id order. */
  lemma KeyOrderedListing(d: Dialect, q: ListRequest, after: Option<nat>, t: Table)
    requires q.Valid() && KeyOrdered(d, q, t)
    ensures Listing(d, q.r, q.ep, q.parsed, q.req, after, t) == Rows(after, Wants(d, q, t))
  {
    var ids := WantedAfter(d, q.r, q.ep, q.parsed, q.req, after, t);
    CursorIsIdBound(d, q, after, t);
    forall x, y | x in ids && y in ids
      ensures RequestedOrder(d, q.r, q.ep, q.req.sort, t)(x, y) == ById()(x, y)
    {
      assert ListsById(d, q, t, x, y);
    }
    RequestedIsTotal(d, q.r, q.ep, q.req.sort, t, ids);
    ArrangeAgrees(ids, RequestedOrder(d, q.r, q.ep, q.req.sort, t), ById());
  }

  ghost function FetchOf(d: Dialect, q: ListRequest, v: Visit): Fetch
    requires q.Valid()
  {
    Fetch(Wants(d, q, v.table), v.limit)
  }

  ghost function FetchesOf(d: Dialect, q: ListRequest, visits: seq<Visit>): (fs: seq<Fetch>)
    requires q.Valid()
    ensures |fs| == |visits|
  {
    seq(|visits|, i requires 0 <= i < |visits| => FetchOf(d, q, visits[i]))
  }

  lemma AnswerIsGood(d: Dialect, q: ListRequest, after: Option<nat>, v: Visit)
    requires q.Valid() && KeyOrdered(d, q, v.table) && v.limit >= 1
    ensures GoodPage(after, FetchOf(d, q, v), AnswerOf(d, q, after, v))
  {
    KeyOrderedListing(d, q, after, v.table);
    var f := Fetch(Wants(d, q, v.table), v.limit);
    WindowIsGood(after, f, Rows(after, f.wanted));
  }

  lemma ConversationIsSession(d: Dialect, q: ListRequest, visits: seq<Visit>, pages: seq<Page>)
    requires q.Valid() && ValidVisits(q, visits) && Orderly(d, q, visits)
    requires IsConversation(d, q, visits, pages)
    ensures IsSession(FetchesOf(d, q, visits), pages)
  {
    forall i | 0 <= i < |pages|
      ensures GoodPage(CursorFor(pages, i), FetchesOf(d, q, visits)[i], pages[i])
              && (i < |pages| - 1 ==> pages[i].hasMore)
    {
      assert Follows(d, q, visits, pages, i);
      OrderlyIsKeyOrdered(d, q, visits, i);
      AnswerIsGood(d, q, CursorFor(pages, i), visits[i]);
    }
  }

  /** Main result: with no sort in effect, or none that can list wanted rows against their keys,
      and any history of other requests between the fetches, a row that matches and stays live
      throughout is shown exactly once by the time the helper reports no more. */
  lemma {:induction false} ExactlyOnceUnderChange(d: Dialect, q: ListRequest, visits: seq<Visit>, pages: seq<Page>,
                                                  id: nat)
    requires q.Valid() && ValidVisits(q, visits) && Orderly(d, q, visits)
    requires IsConversation(d, q, visits, pages) && Finished(pages)
    requires forall i :: 0 <= i < |visits| ==> id in Wants(d, q, visits[i].table)
    ensures ShownOnce(Ids(pages), id)
  {
    var fetches := FetchesOf(d, q, visits);
    ConversationIsSession(d, q, visits, pages);
    ExactlyOnce(fetches, pages, id);
  }

  /** Whatever else happens to the table, ids come back strictly increasing. */
  lemma {:induction false} ConversationAscends(d: Dialect, q: ListRequest, visits: seq<Visit>, pages: seq<Page>)
    requires q.Valid() && ValidVisits(q, visits) && Orderly(d, q, visits)
    requires IsConversation(d, q, visits, pages)
    ensures Ascending(Ids(pages))
  {
    var fetches := FetchesOf(d, q, visits);
    ConversationIsSession(d, q, visits, pages);
    SessionIsGood(fetches, pages);
    SessionAscends(None, fetches, pages);
  }

  /** Nothing is shown that did not match when its page was fetched. */
  lemma ConversationShowsWanted(d: Dialect, q: ListRequest, visits: seq<Visit>, pages: seq<Page>, i: nat, id: nat)
    requires q.Valid() && ValidVisits(q, visits) && Orderly(d, q, visits)
    requires IsConversation(d, q, visits, pages) && i < |pages| && id in pages[i].ids
    ensures id in Wants(d, q, visits[i].table)
  {
    ConversationIsSession(d, q, visits, pages);
    assert GoodPage(CursorFor(pages, i), FetchesOf(d, q, visits)[i], pages[i]);
  }

  /** Over a table nobody changes, a conversation that ends has shown the whole listing in
      order, and none can be longer than the listing has full pages, plus one. */
  lemma {:induction false} StillConversation(d: Dialect, q: ListRequest, visits: seq<Visit>, pages: seq<Page>, t: Table,
                                             limit: nat)
    requires q.Valid() && ValidVisits(q, visits) && Orderly(d, q, visits) && Keyed(PrimaryKey(q.r), t)
    requires IsConversation(d, q, visits, pages)
    requires forall i :: 0 <= i < |visits| ==> visits[i] == Visit(t, limit)
    ensures Finished(pages) ==> Ids(pages) == Listing(d, q.r, q.ep, q.parsed, q.req, None, t)
    ensures pages != [] ==> (|pages| - 1) * limit <= |Wants(d, q, t)|
  {
    var fetches, wanted := FetchesOf(d, q, visits), Wants(d, q, t);
    assert AllSee(fetches, wanted) && SameLimit(fetches, limit);
    assert IsSession(fetches, pages) by {
      ConversationIsSession(d, q, visits, pages);
    }
    StillSessionIsBounded(fetches, pages, wanted, limit);
    if Finished(pages) {
      StillSessionIsListing(fetches, pages, wanted);
      assert Listing(d, q.r, q.ep, q.parsed, q.req, None, t) == Rows(None, wanted) by {
        assert visits[0].table == t;
        OrderlyIsKeyOrdered(d, q, visits, 0);
        KeyOrderedListing(d, q, None, t);
      }
    }
  }

  // ----- Otherwise cursors lose rows ---------------------------------------

  /** Visits to a table nobody changes. */
  ghost predicate StillVisits(q: ListRequest, t: Table, visits: seq<Visit>) {
    TypedTable(q.r, t) && forall i :: 0 <= i < |visits| ==> visits[i].table == t && visits[i].limit >= 1
  }

  /** A conversation that ends, over such a table. */
  ghost predicate Walk(d: Dialect, q: ListRequest, t: Table, visits: seq<Visit>, pages: seq<Page>)
    requires q.Valid()
  {
    StillVisits(q, t, visits) && IsConversation(d, q, visits, pages) && Finished(pages)
  }

  /** Every such conversation has shown every wanted row. */
  ghost predicate ShowsEverything(d: Dialect, q: ListRequest)
    requires q.Valid()
  {
    forall t, visits, pages, id :: Walk(d, q, t, visits, pages) && id in Wants(d, q, t) ==> id in Ids(pages)
  }

  /** Two wanted rows, listed against their keys. */
  ghost predicate Opposed(d: Dialect, q: ListRequest, t: Table, x: nat, y: nat)
    requires q.Valid()
  {
    TypedTable(q.r, t) && x > y && Wants(d, q, t) == {x, y} && RequestedOrder(d, q.r, q.ep, q.req.sort, t)(x, y)
  }

  lemma InvertedIsOpposed(d: Dialect, q: ListRequest, a: Row, b: Row) returns (t: Table, x: nat, y: nat)
    requires q.Valid() && Inverted(d, q, a, b)
    ensures Opposed(d, q, t, x, y)
  {
    x, y := Col(a, PrimaryKey(q.r)).id, Col(b, PrimaryKey(q.r)).id;
    t := map[x := a, y := b];
    TwoMatches(d, q, t, x, y);
    OrderOfRows(d, q, t, x, y);
  }

  lemma TwoMatches(d: Dialect, q: ListRequest, t: Table, x: nat, y: nat)
    requires q.Valid() && t.Keys == {x, y} && Match(d, q, t[x]) && Match(d, q, t[y])
    requires Col(t[x], PrimaryKey(q.r)) == Uuid(x) && Col(t[y], PrimaryKey(q.r)) == Uuid(y)
    ensures TypedTable(q.r, t) && Wants(d, q, t) == {x, y}
  {
    AllWanted(d, q, t);
  }

  lemma AllWanted(d: Dialect, q: ListRequest, t: Table)
    requires q.Valid() && forall id :: id in t ==> Match(d, q, t[id])
    ensures Wants(d, q, t) == t.Keys
  {
  }

  lemma TwoInOrder(l: seq<nat>, both: set<nat>, x: nat, y: nat, lt: (nat, nat) -> bool)
    requires both == {x, y} && x != y && Elements(l) == both && |l| == |both|
    requires StrictTotal(both, lt) && Increasing(l, lt) && lt(x, y)
    ensures l == [x, y]
  {
    assert |both - {x}| == |{y}|;
    assert l[0] in Elements(l) && l[1] in Elements(l);
    assert lt(l[0], l[1]);
  }

  lemma OpposedListing(d: Dialect, q: ListRequest, t: Table, x: nat, y: nat)
    requires q.Valid() && Opposed(d, q, t, x, y)
    ensures Listing(d, q.r, q.ep, q.parsed, q.req, None, t) == [x, y]
  {
    RequestedIsTotal(d, q.r, q.ep, q.req.sort, t, {x, y});
    ListingFacts(d, q.r, q.ep, q.parsed, q.req, None, t);
    TwoInOrder(Listing(d, q.r, q.ep, q.parsed, q.req, None, t), {x, y}, x, y,
               RequestedOrder(d, q.r, q.ep, q.req.sort, t));
  }

  lemma NoneBeyond(d: Dialect, q: ListRequest, t: Table, x: nat, y: nat)
    requires q.Valid() && Opposed(d, q, t, x, y)
    ensures WantedAfter(d, q.r, q.ep, q.parsed, q.req, Some(x), t) == {}
  {
    CursorIsIdBound(d, q, Some(x), t);
  }

  lemma NothingBehind(d: Dialect, q: ListRequest, t: Table, x: nat, y: nat)
    requires q.Valid() && Opposed(d, q, t, x, y)
    ensures Listing(d, q.r, q.ep, q.parsed, q.req, Some(x), t) == []
  {
    NoneBeyond(d, q, t, x, y);
    ListingFacts(d, q.r, q.ep, q.parsed, q.req, Some(x), t);
    EmptyElements(Listing(d, q.r, q.ep, q.parsed, q.req, Some(x), t));
  }

  /** Cutting pages of one row from those two listings: the first page shows the first row and
      announces more, and nothing follows it. */
  lemma OnePageThenNothing(x: nat, y: nat)
    ensures PageOf(Window([x, y], 0, 2), 1) == LosingPages(x)[0]
    ensures PageOf(Window([], 0, 2), 1) == LosingPages(x)[1]
    ensures Ids(LosingPages(x)) == [x]
  {
    var rows: seq<nat> := [x, y];
    assert Window(rows, 0, 2) == rows && rows[..1] == [x];
    var none: seq<nat> := [];
    assert Window(none, 0, 2) == none;
    var pages := LosingPages(x);
    assert pages[1..] == [pages[1]] && pages[1..][1..] == [];
    assert Ids(pages[1..]) == [];
  }

  function LosingPages(x: nat): (pages: seq<Page>)
    ensures |pages| == 2 && Finished(pages) && CursorFor(pages, 0) == None && CursorFor(pages, 1) == Some(x)
  {
    [Page([x], Some(x), true), Page([], None, false)]
  }

  lemma LosingPagesLose(x: nat, y: nat)
    requires x != y
    ensures y !in Ids(LosingPages(x))
  {
    OnePageThenNothing(x, y);
  }

  predicate TwoVisits(t: Table, visits: seq<Visit>) {
    |visits| == 2 && visits[0] == Visit(t, 1) && visits[1] == Visit(t, 1)
  }

  lemma FirstAnswer(d: Dialect, q: ListRequest, t: Table, x: nat, y: nat, visits: seq<Visit>)
    requires q.Valid() && Opposed(d, q, t, x, y) && TwoVisits(t, visits) && ValidVisits(q, visits)
    ensures Follows(d, q, visits, LosingPages(x), 0)
  {
    OpposedListing(d, q, t, x, y);
    OnePageThenNothing(x, y);
  }

  lemma SecondAnswer(d: Dialect, q: ListRequest, t: Table, x: nat, y: nat, visits: seq<Visit>)
    requires q.Valid() && Opposed(d, q, t, x, y) && TwoVisits(t, visits) && ValidVisits(q, visits)
    ensures Follows(d, q, visits, LosingPages(x), 1)
  {
    NothingBehind(d, q, t, x, y);
    OnePageThenNothing(x, y);
  }

  lemma TwoPagesFollow(d: Dialect, q: ListRequest, visits: seq<Visit>, pages: seq<Page>)
    requires q.Valid() && ValidVisits(q, visits) && |visits| == |pages| == 2
    requires Follows(d, q, visits, pages, 0) && Follows(d, q, visits, pages, 1)
    ensures IsConversation(d, q, visits, pages)
  {
    forall i | 0 <= i < |pages|
      ensures Follows(d, q, visits, pages, i)
    {
      if i > 0 {
        assert i == 1;
      }
    }
  }

  lemma LosingConversation(d: Dialect, q: ListRequest, t: Table, x: nat, y: nat, visits: seq<Visit>)
    requires q.Valid() && Opposed(d, q, t, x, y) && TwoVisits(t, visits) && ValidVisits(q, visits)
    ensures IsConversation(d, q, visits, LosingPages(x))
  {
    FirstAnswer(d, q, t, x, y, visits);
    SecondAnswer(d, q, t, x, y, visits);
    TwoPagesFollow(d, q, visits, LosingPages(x));
  }

  lemma {:induction false} LostRow(d: Dialect, q: ListRequest, t: Table, visits: seq<Visit>, pages: seq<Page>, id: nat)
    requires q.Valid() && StillVisits(q, t, visits) && IsConversation(d, q, visits, pages) && Finished(pages)
    requires id in Wants(d, q, t) && id !in Ids(pages)
    ensures !ShowsEverything(d, q)
  {
    assert Walk(d, q, t, visits, pages);
  }

  lemma StillVisitsAreValid(q: ListRequest, t: Table, visits: seq<Visit>)
    requires StillVisits(q, t, visits)
    ensures ValidVisits(q, visits)
  {
  }

  lemma TwoVisitsAreStill(q: ListRequest, t: Table, visits: seq<Visit>)
    requires TypedTable(q.r, t) && TwoVisits(t, visits)
    ensures StillVisits(q, t, visits)
  {
    forall i | 0 <= i < |visits|
      ensures visits[i] == Visit(t, 1)
    {
      if i > 0 {
        assert i == 1;
      }
    }
  }

  /** Paging through the opposed rows one by one skips the second for good. */
  lemma OpposedWalkLosesRow(d: Dialect, q: ListRequest, t: Table, x: nat, y: nat, visits: seq<Visit>)
    requires q.Valid() && Opposed(d, q, t, x, y) && TwoVisits(t, visits)
    ensures !ShowsEverything(d, q)
  {
    TwoVisitsAreStill(q, t, visits);
    StillVisitsAreValid(q, t, visits);
    LosingConversation(d, q, t, x, y, visits);
    LosingPagesLose(x, y);
    LostRow(d, q, t, visits, LosingPages(x), y);
  }

  lemma NeverInvertedShowsEverything(d: Dialect, q: ListRequest)
    requires q.Valid() && NeverInverted(d, q)
    ensures ShowsEverything(d, q)
  {
    forall t, visits, pages, id | Walk(d, q, t, visits, pages) && id in Wants(d, q, t)
      ensures id in Ids(pages)
    {
      ExactlyOnceUnderChange(d, q, visits, pages, id);
    }
  }

  /** Main result, for every request: following cursors over an unchanging table shows every
      wanted row if and only if no two rows that a table can hold and the request is about are
      listed against their keys. */
  lemma CursorsCompleteByRows(d: Dialect, q: ListRequest)
    requires q.Valid()
    ensures ShowsEverything(d, q) <==> NeverInverted(d, q)
  {
    if a, b :| Inverted(d, q, a, b) {
      var t, x, y := InvertedIsOpposed(d, q, a, b);
      OpposedWalkLosesRow(d, q, t, x, y, [Visit(t, 1), Visit(t, 1)]);
    } else {
      NeverInvertedShowsEverything(d, q);
    }
  }

  // ----- What the request alone tells --------------------------------------

  /** A supplied filter holds the column to one value. */
  predicate Pinned(q: ListRequest, column: string)
    requires q.Valid()
  {
    exists i :: 0 <= i < |q.ep.filters| && q.ep.filters[i] == column && q.parsed[i] != Null
  }

  /** The wanted rows of a table can hold values in the column that sort differently. */
  ghost predicate Free(d: Dialect, q: ListRequest, column: string)
    requires q.Valid()
  {
    && column in StoredColumns(q.r.schema) && Varies(d, q.r.schema.at[column])
    && !Pinned(q, column) && !(q.r.softDelete && column == "deleted_at")
  }

  /** Slot `i` of those in effect can put a greater key first. */
  ghost predicate Scrambles(d: Dialect, q: ListRequest, i: nat)
    requires q.Valid()
  {
    var kept, pk := Kept(q.req.sort, |q.ep.sort|), PrimaryKey(q.r);
    && Fresh(pk, q.ep.sort, kept, i)
    && if kept[i].field == pk then kept[i].direction == Desc else Free(d, q, kept[i].field)
  }

  /** At most one row is wanted, or no slot in effect can put a greater key first. */
  ghost predicate Calm(d: Dialect, q: ListRequest)
    requires q.Valid()
  {
    Pinned(q, PrimaryKey(q.r)) || forall i: nat :: !Scrambles(d, q, i)
  }

  /** What a filter supplied for a column says about matching rows. */
  lemma PinnedValue(d: Dialect, q: ListRequest, a: Row, b: Row, column: string)
    requires q.Valid() && Pinned(q, column) && Match(d, q, a) && Match(d, q, b)
    ensures Col(a, column) == Col(b, column)
  {
    var i :| 0 <= i < |q.ep.filters| && q.ep.filters[i] == column && q.parsed[i] != Null;
    assert FilterHolds(a, q.ep.filters[i], q.parsed[i]) && FilterHolds(b, q.ep.filters[i], q.parsed[i]);
  }

  lemma EqualColumnTies(d: Dialect, schema: IndexMap<FieldSchema>, declared: seq<string>, s: SortField, a: Row, b: Row)
    requires (forall f :: f in declared ==> f in schema.at) && s.field in declared && Col(a, s.field) == Col(b, s.field)
    ensures SlotCompare(d, schema, declared, s, a, b) == Eq
  {
  }

  /** Matching rows tie on a column that is not free. */
  lemma BoundColumnTies(d: Dialect, q: ListRequest, a: Row, b: Row, s: SortField)
    requires q.Valid() && Match(d, q, a) && Match(d, q, b)
    requires s.field in q.ep.sort && !Free(d, q, s.field)
    ensures SlotCompare(d, q.r.schema, q.ep.sort, s, a, b) == Eq
  {
    if s.field in StoredColumns(q.r.schema) && Varies(d, q.r.schema.at[s.field]) {
      if Pinned(q, s.field) {
        PinnedValue(d, q, a, b, s.field);
      }
      EqualColumnTies(d, q.r.schema, q.ep.sort, s, a, b);
    } else {
      ConstantSlot(d, q.r.schema, q.ep.sort, s, a, b);
    }
  }

  lemma CalmOrderIsByKey(d: Dialect, q: ListRequest, a: Row, b: Row)
    requires q.Valid() && (forall i: nat :: !Scrambles(d, q, i))
    requires Match(d, q, a) && Match(d, q, b) && TwoKeys(PrimaryKey(q.r), a, b)
    ensures ListedBefore(d, q, a, b) <==> PkCompare(d, PrimaryKey(q.r), a, b) == Lt
  {
    var kept, pk := Kept(q.req.sort, |q.ep.sort|), PrimaryKey(q.r);
    assert pk in a && Storable(q.r.schema.at[pk], a[pk]);
    forall i: nat | i < |kept|
      ensures !Tells(d, q.r.schema, pk, q.ep.sort, kept, i, a, b)
    {
      assert !Scrambles(d, q, i);
      if Fresh(pk, q.ep.sort, kept, i) && kept[i].field != pk {
        BoundColumnTies(d, q, a, b, kept[i]);
      }
    }
    UntoldTail(d, q.r.schema, pk, q.ep.sort, kept, 0, a, b);
  }

  lemma CalmNeverInverts(d: Dialect, q: ListRequest)
    requires q.Valid() && Calm(d, q)
    ensures NeverInverted(d, q)
  {
    forall a, b | Inverted(d, q, a, b)
      ensures false
    {
      if Pinned(q, PrimaryKey(q.r)) {
        PinnedValue(d, q, a, b, PrimaryKey(q.r));
      } else {
        CalmOrderIsByKey(d, q, a, b);
      }
    }
  }

  predicate Unsearched(q: ListRequest) {
    q.ep.search == [] || q.req.search == None
  }

  /** A value that a wanted row may hold in a stored column. */
  predicate Allowed(q: ListRequest, column: string, v: Value)
    requires q.Valid() && column in q.r.schema.at
  {
    && Storable(q.r.schema.at[column], v)
    && (q.r.softDelete && column == "deleted_at" ==> v == Null)
    && forall i :: 0 <= i < |q.ep.filters| && q.ep.filters[i] == column ==> q.parsed[i] in {Null, v}
  }

  /** The request can be met: every stored column has a value for it, and the filters it
      supplies are on stored columns. */
  ghost predicate Meetable(q: ListRequest)
    requires q.Valid()
  {
    && (forall c :: c in StoredColumns(q.r.schema) ==> exists v :: Allowed(q, c, v))
    && (forall c :: Pinned(q, c) ==> c in StoredColumns(q.r.schema))
  }

  lemma MatchAllows(d: Dialect, q: ListRequest, row: Row, c: string)
    requires q.Valid() && Match(d, q, row) && c in StoredColumns(q.r.schema)
    ensures Allowed(q, c, row[c])
  {
    forall i | 0 <= i < |q.ep.filters| && q.ep.filters[i] == c
      ensures q.parsed[i] in {Null, row[c]}
    {
      assert FilterHolds(row, q.ep.filters[i], q.parsed[i]);
    }
  }

  lemma MatchStoresPins(d: Dialect, q: ListRequest, row: Row, c: string)
    requires q.Valid() && Match(d, q, row) && Pinned(q, c)
    ensures c in StoredColumns(q.r.schema)
  {
    var i :| 0 <= i < |q.ep.filters| && q.ep.filters[i] == c && q.parsed[i] != Null;
    assert FilterHolds(row, q.ep.filters[i], q.parsed[i]);
  }

  /** A row of allowed values. */
  ghost function SomeMatch(q: ListRequest): Row
    requires q.Valid() && Meetable(q)
  {
    map c | c in StoredColumns(q.r.schema) :: (var v :| Allowed(q, c, v); v)
  }

  lemma SomeMatchAllowed(q: ListRequest, c: string)
    requires q.Valid() && Meetable(q) && c in StoredColumns(q.r.schema)
    ensures Allowed(q, c, SomeMatch(q)[c])
  {
  }

  lemma SomeMatchMatches(d: Dialect, q: ListRequest)
    requires q.Valid() && Meetable(q) && Unsearched(q)
    ensures Match(d, q, SomeMatch(q))
  {
    var row := SomeMatch(q);
    forall c | c in row
      ensures Storable(q.r.schema.at[c], row[c]) && (q.r.softDelete && c == "deleted_at" ==> row[c] == Null)
    {
      SomeMatchAllowed(q, c);
    }
    forall i | 0 <= i < |q.ep.filters|
      ensures FilterHolds(row, q.ep.filters[i], q.parsed[i])
    {
      if q.parsed[i] != Null {
        assert Pinned(q, q.ep.filters[i]);
        SomeMatchAllowed(q, q.ep.filters[i]);
      }
    }
  }

  /** Without a search term, being meetable is having a row that matches. */
  lemma MeetableExactly(d: Dialect, q: ListRequest)
    requires q.Valid() && Unsearched(q)
    ensures Meetable(q) <==> exists row :: Match(d, q, row)
  {
    if Meetable(q) {
      SomeMatchMatches(d, q);
    }
    if row :| Match(d, q, row) {
      forall c | c in StoredColumns(q.r.schema)
        ensures exists v :: Allowed(q, c, v)
      {
        MatchAllows(d, q, row, c);
      }
      forall c | Pinned(q, c) {
        MatchStoresPins(d, q, row, c);
      }
    }
  }

  /** Another key and another value of a free column leave a row wanted. */
  lemma VariantMatches(d: Dialect, q: ListRequest, base: Row, id: nat, column: string, v: Value)
    requires q.Valid() && Unsearched(q) && UuidKey(q.r.schema, PrimaryKey(q.r)) && Match(d, q, base)
    requires !Pinned(q, PrimaryKey(q.r))
    requires column != PrimaryKey(q.r) ==> Free(d, q, column) && Storable(q.r.schema.at[column], v)
    ensures Match(d, q, Variant(base, PrimaryKey(q.r), id, column, v))
  {
    var pk := PrimaryKey(q.r);
    var row := Variant(base, pk, id, column, v);
    VariantIsTyped(q.r.schema, base, pk, id, column, v);
    KeyIsUuid(q.r.schema, pk, base);
    forall i | 0 <= i < |q.ep.filters|
      ensures FilterHolds(row, q.ep.filters[i], q.parsed[i])
    {
      assert FilterHolds(base, q.ep.filters[i], q.parsed[i]);
    }
  }

  lemma OpposingValues(d: Dialect, q: ListRequest, i: nat, base: Row) returns (lo: Value, hi: Value)
    requires q.Valid() && UuidKey(q.r.schema, PrimaryKey(q.r)) && Scrambles(d, q, i)
    ensures var pk, s := PrimaryKey(q.r), Kept(q.req.sort, |q.ep.sort|)[i];
            && (s.field != pk ==> Free(d, q, s.field))
            && (s.field != pk ==> Storable(q.r.schema.at[s.field], lo) && Storable(q.r.schema.at[s.field], hi))
            && SlotCompare(d, q.r.schema, q.ep.sort, s, Variant(base, pk, 1, s.field, lo),
                           Variant(base, pk, 0, s.field, hi)) == Lt
  {
    var pk, s := PrimaryKey(q.r), Kept(q.req.sort, |q.ep.sort|)[i];
    var u, v := Null, Null;
    if s.field != pk {
      u, v := TwoValues(d, q.r.schema.at[s.field]);
    }
    lo, hi := AgainstKey(d, q.r.schema, pk, q.ep.sort, s, base, u, v);
  }

  /** A slot that scrambles, in a request that can be met, inverts two rows. */
  lemma ScramblingInverts(d: Dialect, q: ListRequest, i: nat) returns (a: Row, b: Row)
    requires q.Valid() && Unsearched(q) && UuidKey(q.r.schema, PrimaryKey(q.r)) && Meetable(q)
    requires !Pinned(q, PrimaryKey(q.r)) && Scrambles(d, q, i)
    ensures Inverted(d, q, a, b)
  {
    var kept, pk := Kept(q.req.sort, |q.ep.sort|), PrimaryKey(q.r);
    var base, f := SomeMatch(q), kept[i].field;
    SomeMatchMatches(d, q);
    var lo, hi := OpposingValues(d, q, i, base);
    a, b := Variant(base, pk, 1, f, lo), Variant(base, pk, 0, f, hi);
    VariantMatches(d, q, base, 1, f, lo);
    VariantMatches(d, q, base, 0, f, hi);
    FreshDecides(d, q.r.schema, pk, q.ep.sort, kept, i, a, b);
  }

  lemma UnmetNeverInverts(d: Dialect, q: ListRequest)
    requires q.Valid() && Unsearched(q) && !Meetable(q)
    ensures NeverInverted(d, q)
  {
    MeetableExactly(d, q);
  }

  /** Main result, exactly when cursors can be trusted: for a request without a search term,
      following cursors over an unchanging table shows every wanted row if and only if a filter
      holds the key to one value, or no sort field in effect both varies and is left unpinned
      by the filters, or sorts the key downwards, or no row at all can be wanted. */
  lemma CursorsCompleteExactly(d: Dialect, q: ListRequest)
    requires q.Valid() && Unsearched(q) && UuidKey(q.r.schema, PrimaryKey(q.r))
    ensures ShowsEverything(d, q) <==> Calm(d, q) || !Meetable(q)
  {
    CursorsCompleteByRows(d, q);
    if Calm(d, q) {
      CalmNeverInverts(d, q);
    } else if !Meetable(q) {
      UnmetNeverInverts(d, q);
    } else {
      var i: nat :| Scrambles(d, q, i);
      var a, b := ScramblingInverts(d, q, i);
    }
  }

  /** With a search term the same condition suffices. */
  lemma CalmShowsEverything(d: Dialect, q: ListRequest)
    requires q.Valid() && Calm(d, q)
    ensures ShowsEverything(d, q)
  {
    CalmNeverInverts(d, q);
    NeverInvertedShowsEverything(d, q);
  }
}
