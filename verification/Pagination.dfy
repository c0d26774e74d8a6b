// The pagination driver, its offset and page strategies, and the REST connector's row
// limit on top of them.
module Pagination {
  import opened Wrappers
  import opened Text
  import opened Frames

  const DEFAULT_MAX_PAGES: int := 20
  const HARD_MAX_PAGES: int := 500

  datatype Strategy = OffsetLimit | PageNumber

  // What a request carries: an offset or a page number, and a page size.
  datatype Request = Request(position: int, size: int)

  // What is wrong with a body: cut off at the size cap, or not JSON within the bounds.
  datatype Fault = TooLarge | BadJson

  // A response: its status, the length of the array at the items path as the paginator sees
  // it (0 when there is no array), the items the connector extracts there, and what is wrong
  // with the body, if anything.
  datatype Page<T> = Page(status: int, count: nat, items: seq<T>, fault: Option<Fault>) {
    predicate IsError() {
      status >= 400
    }
  }

  // A server's answer to the i-th request, None where the transport fails. It may answer a
  // repeated request differently.
  type Server<!T> = (nat, Request) -> Option<Page<T>>

  datatype Outcome<T> = Outcome(pages: seq<Page<T>>, requests: seq<Request>, truncated: bool, failed: bool)

  function EffectivePages(maxPages: int): (r: int)
    ensures 1 <= r <= HARD_MAX_PAGES
  {
    if maxPages <= 0 then DEFAULT_MAX_PAGES else if maxPages > HARD_MAX_PAGES then HARD_MAX_PAGES else maxPages
  }

  function EffectiveSize(pageSize: int): (r: int)
    ensures r > 0
  {
    if pageSize <= 0 then 50 else pageSize
  }

  function EffectiveStart(startPage: int): (r: int)
    ensures r > 0
  {
    if startPage <= 0 then 1 else startPage
  }

  // Whether a page of count items is the last one.
  predicate Stops(s: Strategy, size: int, count: nat) {
    count == 0 || (s.OffsetLimit? && count < size)
  }

  function Advanced(s: Strategy, size: int, position: int): int {
    if s.OffsetLimit? then position + size else position + 1
  }

  class Paginator {
    const strategy: Strategy
    const pageSize: int
    const startPage: int
    var position: int

    constructor (strategy: Strategy, pageSize: int, startPage: int)
      ensures this.strategy == strategy && this.pageSize == pageSize && this.startPage == startPage
      ensures position == 0
    {
      this.strategy, this.pageSize, this.startPage := strategy, pageSize, startPage;
      position := 0;
    }

    // The offset strategy asks for offset 0 but leaves its own offset as it was.
    method Init() returns (req: Request)
      modifies this
      ensures req == Request(FirstPosition(strategy, startPage), EffectiveSize(pageSize))
      ensures position == if strategy.OffsetLimit? then old(position) else req.position
    {
      if strategy.OffsetLimit? {
        req := Request(0, EffectiveSize(pageSize));
      } else {
        position := EffectiveStart(startPage);
        req := Request(position, EffectiveSize(pageSize));
      }
    }

    method Next(count: nat) returns (next: Option<Request>)
      modifies this
      ensures Stops(strategy, EffectiveSize(pageSize), count) ==> next.None? && position == old(position)
      ensures !Stops(strategy, EffectiveSize(pageSize), count) ==>
                position == Advanced(strategy, EffectiveSize(pageSize), old(position))
                && next == Some(Request(position, EffectiveSize(pageSize)))
    {
      var size := EffectiveSize(pageSize);
      if strategy.OffsetLimit? {
        if count == 0 || count < size {
          return None;
        }
        position := position + size;
      } else {
        if count == 0 {
          return None;
        }
        position := position + 1;
      }
      return Some(Request(position, size));
    }
  }

  function FirstPosition(s: Strategy, startPage: int): int {
    if s.OffsetLimit? then 0 else EffectiveStart(startPage)
  }

  // Driving a strategy for at most left pages: the i-th request asks for at, and held is
  // the position the strategy goes on from.
  function Drive<T>(server: Server<T>, s: Strategy, size: int, i: nat, at: int, held: int, left: nat): Outcome<T>
    decreases left
  {
    if left == 0 then Outcome([], [], true, false)
    else
      var req := Request(at, size);
      match server(i, req)
      case None => Outcome([], [req], false, true)
      case Some(page) =>
        if page.IsError() || Stops(s, size, page.count) then Outcome([page], [req], false, false)
        else
          var next := Advanced(s, size, held);
          Behind([page], [req], Drive(server, s, size, i + 1, next, next, left - 1))
  }

  // One request answered with a page.
  lemma DriveOn<T>(server: Server<T>, s: Strategy, size: int, i: nat, at: int, held: int, left: nat, page: Page<T>)
    requires left > 0 && server(i, Request(at, size)) == Some(page) && !page.IsError()
    ensures var req, next := Request(at, size), Advanced(s, size, held);
            Drive(server, s, size, i, at, held, left) ==
            if Stops(s, size, page.count) then Outcome([page], [req], false, false)
            else Behind([page], [req], Drive(server, s, size, i + 1, next, next, left - 1))
  {
  }

  function Behind<T>(pages: seq<Page<T>>, requests: seq<Request>, rest: Outcome<T>): Outcome<T> {
    rest.(pages := pages + rest.pages, requests := requests + rest.requests)
  }

  lemma BehindTwice<T>(a: seq<Page<T>>, ra: seq<Request>, b: seq<Page<T>>, rb: seq<Request>, rest: Outcome<T>)
    ensures Behind(a, ra, Behind(b, rb, rest)) == Behind(a + b, ra + rb, rest)
  {
    assert a + (b + rest.pages) == a + b + rest.pages;
    assert ra + (rb + rest.requests) == ra + rb + rest.requests;
  }

  lemma BehindNothing<T>(rest: Outcome<T>)
    ensures Behind([], [], rest) == rest
  {
    assert [] + rest.pages == rest.pages && [] + rest.requests == rest.requests;
  }

  // The outcome of a driver that asks for its first position while holding held.
  function Driven<T>(server: Server<T>, s: Strategy, pageSize: int, startPage: int, held: int,
                     maxPages: int): Outcome<T> {
    var at := FirstPosition(s, startPage);
    Drive(server, s, EffectiveSize(pageSize), 0, at, if s.OffsetLimit? then held else at, EffectivePages(maxPages))
  }

  method DoPaginated<T>(server: Server<T>, paginator: Paginator, maxPages: int) returns (result: Outcome<T>)
    modifies paginator
    ensures result == Driven(server, paginator.strategy, paginator.pageSize, paginator.startPage,
                             old(paginator.position), maxPages)
  {
    var max := EffectivePages(maxPages);
    ghost var s, size := paginator.strategy, EffectiveSize(paginator.pageSize);
    ghost var goal := Driven(server, s, paginator.pageSize, paginator.startPage, paginator.position, maxPages);
    var req := paginator.Init();
    var pages: seq<Page<T>>, requests: seq<Request> := [], [];
    BehindNothing(goal);
    for i := 0 to max
      invariant req.size == size
      invariant goal == Behind(pages, requests, Drive(server, s, size, i, req.position, paginator.position, max - i))
    {
      var reply := server(i, req);
      requests := requests + [req];
      if reply.None? {
        assert pages + [] == pages;
        return Outcome(pages, requests, false, true);
      }
      var page := reply.value;
      pages := pages + [page];
      if page.IsError() {
        return Outcome(pages, requests, false, false);
      }
      var next := paginator.Next(page.count);
      if next.None? {
        return Outcome(pages, requests, false, false);
      }
      req := next.value;
      BehindTwice(pages[..|pages| - 1], requests[..|requests| - 1], [page], requests[|requests| - 1..],
                  Drive(server, s, size, i + 1, req.position, paginator.position, max - i - 1));
    }
    result := Outcome(pages, requests, true, false);
  }

  // ---- An honest server ----

  function Least(a: int, b: int): int {
    if a <= b then a else b
  }

  // The items from start up to end, as far as the dataset goes.
  function Between<T>(data: seq<T>, start: int, end: int): seq<T>
    requires 0 <= start <= end
  {
    data[Least(start, |data|)..Least(end, |data|)]
  }

  function StartOf(s: Strategy, req: Request): int {
    if s.OffsetLimit? then req.position else (req.position - 1) * req.size
  }

  // A good page of the given items.
  function GoodPage<T>(items: seq<T>): Page<T> {
    Page(200, |items|, items, None)
  }

  // It returns slices of one fixed dataset; pages count from 1.
  function Honest<T>(data: seq<T>, s: Strategy): Server<T> {
    (i: nat, req: Request) =>
      var start := StartOf(s, req);
      Some(GoodPage(if start >= 0 && req.size >= 0 then Between(data, start, start + req.size) else []))
  }

  function ItemsOf<T>(pages: seq<Page<T>>): seq<T> {
    if pages == [] then [] else pages[0].items + ItemsOf(pages[1..])
  }

  // Where page k starts: k times the size, written so that it steps.
  function Offset(size: nat, k: nat): nat {
    if k == 0 then 0 else Offset(size, k - 1) + size
  }

  lemma {:induction false} OffsetIsProduct(size: nat, k: nat)
    ensures Offset(size, k) == k * size
  {
    if k > 0 {
      OffsetIsProduct(size, k - 1);
    }
  }

  lemma {:induction false} OffsetGrows(size: nat, k: nat, more: nat)
    requires size > 0
    ensures Offset(size, k + more) >= Offset(size, k) + more
  {
    if more > 0 {
      OffsetGrows(size, k, more - 1);
    }
  }

  // The k-th position of a fresh driver.
  function Position(s: Strategy, size: nat, k: nat): int {
    if s.OffsetLimit? then Offset(size, k) else k + 1
  }

  lemma PositionStarts(s: Strategy, size: nat, k: nat)
    ensures StartOf(s, Request(Position(s, size, k), size)) == Offset(size, k)
    ensures Advanced(s, size, Position(s, size, k)) == Position(s, size, k + 1)
  {
    OffsetIsProduct(size, k);
  }

  // Whether left pages from the k-th on are used up before the strategy sees the end.
  predicate RunsOut(s: Strategy, size: nat, n: nat, k: nat, left: nat) {
    if s.OffsetLimit? then n >= Offset(size, k + left) else left == 0 || n > Offset(size, k + left - 1)
  }

  function SliceCount(n: nat, start: nat, size: nat): nat {
    Least(start + size, n) - Least(start, n)
  }

  predicate IsLast(s: Strategy, size: nat, n: nat, k: nat)
    requires size > 0
  {
    Stops(s, size, SliceCount(n, Offset(size, k), size))
  }

  lemma LastPage(s: Strategy, size: nat, n: nat, k: nat, left: nat)
    requires size > 0 && left > 0 && IsLast(s, size, n, k)
    ensures !RunsOut(s, size, n, k, left)
    ensures n <= Offset(size, k) + size <= Offset(size, k + left)
  {
    OffsetGrows(size, k, 0);
    OffsetGrows(size, k + 1, left - 1);
    OffsetGrows(size, k, left - 1);
  }

  lemma NotLastPage(s: Strategy, size: nat, n: nat, k: nat, left: nat)
    requires size > 0 && left > 0 && !IsLast(s, size, n, k)
    ensures RunsOut(s, size, n, k, left) == RunsOut(s, size, n, k + 1, left - 1)
    ensures s.OffsetLimit? ==> Offset(size, k + 1) <= n
  {
    OffsetGrows(size, k, 0);
    assert k + 1 + (left - 1) == k + left;
  }

  lemma JoinBetween<T>(data: seq<T>, a: int, b: int, c: int)
    requires 0 <= a <= b <= c
    ensures Between(data, a, b) + Between(data, b, c) == Between(data, a, c)
  {
  }

  lemma BetweenPastEnd<T>(data: seq<T>, a: int, b: int, c: int)
    requires 0 <= a <= b <= c && |data| <= b
    ensures Between(data, a, b) + [] == Between(data, a, c)
  {
  }

  // Page k of the dataset, and the request for it.
  function PageAt<T>(data: seq<T>, size: nat, k: nat): Page<T>
    requires size > 0
  {
    GoodPage(Between(data, Offset(size, k), Offset(size, k + 1)))
  }

  function RequestFor(s: Strategy, size: nat, k: nat): Request {
    Request(Position(s, size, k), size)
  }

  // What a fresh driver gets from page k on.
  function Fetched<T>(data: seq<T>, s: Strategy, size: nat, k: nat, left: nat): Outcome<T>
    requires size > 0
    decreases left
  {
    if left == 0 then Outcome([], [], true, false)
    else if IsLast(s, size, |data|, k) then Outcome([PageAt(data, size, k)], [RequestFor(s, size, k)], false, false)
    else Behind([PageAt(data, size, k)], [RequestFor(s, size, k)], Fetched(data, s, size, k + 1, left - 1))
  }

  lemma HonestReply<T>(data: seq<T>, s: Strategy, size: nat, i: nat, k: nat)
    requires size > 0
    ensures Honest(data, s)(i, RequestFor(s, size, k)) == Some(PageAt(data, size, k))
    ensures IsLast(s, size, |data|, k) <==> Stops(s, size, PageAt(data, size, k).count)
  {
    PositionStarts(s, size, k);
    HonestAnswer(data, s, i, RequestFor(s, size, k), Offset(size, k));
    CountOfPage(data, size, k);
  }

  lemma HonestAnswer<T>(data: seq<T>, s: Strategy, i: nat, req: Request, start: nat)
    requires start == StartOf(s, req) && req.size >= 0
    ensures Honest(data, s)(i, req) == Some(GoodPage(Between(data, start, start + req.size)))
  {
  }

  lemma CountOfPage<T>(data: seq<T>, size: nat, k: nat)
    requires size > 0
    ensures PageAt(data, size, k) == GoodPage(Between(data, Offset(size, k), Offset(size, k) + size))
    ensures PageAt(data, size, k).count == SliceCount(|data|, Offset(size, k), size)
  {
  }

  lemma DriveMeets<T>(server: Server<T>, data: seq<T>, s: Strategy, size: nat, i: nat, k: nat, left: nat)
    requires size > 0 && left > 0
    requires server(i, RequestFor(s, size, k)) == Some(PageAt(data, size, k))
    requires IsLast(s, size, |data|, k) <==> Stops(s, size, PageAt(data, size, k).count)
    requires var next := Position(s, size, k + 1);
             Drive(server, s, size, i + 1, next, next, left - 1) == Fetched(data, s, size, k + 1, left - 1)
    ensures Drive(server, s, size, i, Position(s, size, k), Position(s, size, k), left)
         == Fetched(data, s, size, k, left)
  {
    PositionStarts(s, size, k);
    DriveOn(server, s, size, i, Position(s, size, k), Position(s, size, k), left, PageAt(data, size, k));
  }

  lemma {:induction false} HonestDrive<T>(data: seq<T>, s: Strategy, size: nat, i: nat, k: nat, left: nat)
    requires size > 0
    ensures Drive(Honest(data, s), s, size, i, Position(s, size, k), Position(s, size, k), left)
         == Fetched(data, s, size, k, left)
    decreases left
  {
    if left > 0 {
      HonestReply(data, s, size, i, k);
      HonestDrive(data, s, size, i + 1, k + 1, left - 1);
      DriveMeets(Honest(data, s), data, s, size, i, k, left);
    }
  }

  lemma ItemsBehind<T>(page: Page<T>, rest: seq<Page<T>>)
    ensures ItemsOf([page] + rest) == page.items + ItemsOf(rest)
    ensures ItemsOf([page]) == page.items
  {
    assert ([page] + rest)[1..] == rest;
    assert [page] == [page] + [] && page.items + [] == page.items;
    assert ([page] + [])[1..] == [];
  }

  lemma ItemsStep<T>(data: seq<T>, s: Strategy, size: nat, k: nat, left: nat)
    requires size > 0 && left > 0
    ensures ItemsOf(Fetched(data, s, size, k, left).pages)
         == PageAt(data, size, k).items
          + if IsLast(s, size, |data|, k) then [] else ItemsOf(Fetched(data, s, size, k + 1, left - 1).pages)
  {
    ItemsBehind(PageAt(data, size, k), Fetched(data, s, size, k + 1, left - 1).pages);
  }

  lemma ItemsLast<T>(data: seq<T>, s: Strategy, size: nat, k: nat, left: nat)
    requires size > 0 && left > 0 && IsLast(s, size, |data|, k)
    requires 0 <= Offset(size, k) <= Offset(size, k + left)
    ensures ItemsOf(Fetched(data, s, size, k, left).pages) == Between(data, Offset(size, k), Offset(size, k + left))
  {
    ItemsStep(data, s, size, k, left);
    LastPage(s, size, |data|, k, left);
    BetweenPastEnd(data, Offset(size, k), Offset(size, k + 1), Offset(size, k + left));
  }

  lemma ItemsMore<T>(data: seq<T>, s: Strategy, size: nat, k: nat, left: nat, end: int)
    requires size > 0 && left > 0 && !IsLast(s, size, |data|, k)
    requires 0 <= Offset(size, k) <= Offset(size, k + 1) <= end
    requires ItemsOf(Fetched(data, s, size, k + 1, left - 1).pages) == Between(data, Offset(size, k + 1), end)
    ensures ItemsOf(Fetched(data, s, size, k, left).pages) == Between(data, Offset(size, k), end)
  {
    ItemsStep(data, s, size, k, left);
    JoinBetween(data, Offset(size, k), Offset(size, k + 1), end);
  }

  lemma NoItems<T>(data: seq<T>, s: Strategy, size: nat, k: nat)
    requires size > 0
    ensures ItemsOf(Fetched(data, s, size, k, 0).pages) == Between(data, Offset(size, k), Offset(size, k))
  {
  }

  lemma {:induction false} ItemsTo<T>(data: seq<T>, s: Strategy, size: nat, k: nat, left: nat, end: nat)
    requires size > 0 && end == Offset(size, k + left)
    ensures Offset(size, k) <= end
    ensures ItemsOf(Fetched(data, s, size, k, left).pages) == Between(data, Offset(size, k), end)
    decreases left
  {
    OffsetGrows(size, k, left);
    if left == 0 {
      NoItems(data, s, size, k);
    } else if IsLast(s, size, |data|, k) {
      ItemsLast(data, s, size, k, left);
    } else {
      assert k + 1 + (left - 1) == k + left;
      ItemsTo(data, s, size, k + 1, left - 1, end);
      OffsetGrows(size, k, 1);
      ItemsMore(data, s, size, k, left, end);
    }
  }

  lemma HonestItems<T>(data: seq<T>, s: Strategy, size: nat, k: nat, left: nat)
    requires size > 0
    ensures Offset(size, k) <= Offset(size, k + left)
    ensures ItemsOf(Fetched(data, s, size, k, left).pages) == Between(data, Offset(size, k), Offset(size, k + left))
  {
    ItemsTo(data, s, size, k, left, Offset(size, k + left));
  }

  lemma {:induction false} HonestTruncates<T>(data: seq<T>, s: Strategy, size: nat, k: nat, left: nat)
    requires size > 0
    requires s.OffsetLimit? && left == 0 ==> Offset(size, k) <= |data|
    ensures var o := Fetched(data, s, size, k, left);
            !o.failed && (o.truncated <==> RunsOut(s, size, |data|, k, left))
    decreases left
  {
    if left > 0 {
      if IsLast(s, size, |data|, k) {
        LastPage(s, size, |data|, k, left);
      } else {
        NotLastPage(s, size, |data|, k, left);
        HonestTruncates(data, s, size, k + 1, left - 1);
      }
    }
  }

  lemma RequestsStep<T>(data: seq<T>, s: Strategy, size: nat, k: nat, left: nat)
    requires size > 0 && left > 0
    ensures Fetched(data, s, size, k, left).requests
         == [RequestFor(s, size, k)]
          + if IsLast(s, size, |data|, k) then [] else Fetched(data, s, size, k + 1, left - 1).requests
  {
  }

  // Page i of the pages from k on is asked for at the (k + i)-th position.
  lemma {:induction false} HonestRequests<T>(data: seq<T>, s: Strategy, size: nat, k: nat, left: nat, i: nat, n: nat)
    requires size > 0 && i < |Fetched(data, s, size, k, left).requests| && n == k + i
    ensures Fetched(data, s, size, k, left).requests[i] == RequestFor(s, size, n)
    decreases left
  {
    RequestsStep(data, s, size, k, left);
    if i > 0 {
      var rest := Fetched(data, s, size, k + 1, left - 1).requests;
      assert Fetched(data, s, size, k, left).requests[i] == rest[i - 1];
      HonestRequests(data, s, size, k + 1, left - 1, i - 1, n);
    }
  }

  // ---- What DoPaginated fetches ----

  // The number of the first page the strategy asks for, counted from 0.
  function FirstPage(s: Strategy, startPage: int): nat {
    if s.OffsetLimit? then 0 else EffectiveStart(startPage) - 1
  }

  lemma FreshDriverFetches<T>(data: seq<T>, s: Strategy, pageSize: int, startPage: int, maxPages: int)
    ensures Driven(Honest(data, s), s, pageSize, startPage, 0, maxPages)
         == Fetched(data, s, EffectiveSize(pageSize), FirstPage(s, startPage), EffectivePages(maxPages))
  {
    HonestDrive(data, s, EffectiveSize(pageSize), 0, FirstPage(s, startPage), EffectivePages(maxPages));
  }

  // Page i is asked for at offset i * pageSize, or as page start + i.
  lemma AsksForPageAt<T>(data: seq<T>, s: Strategy, pageSize: int, startPage: int, maxPages: int, o: Outcome<T>, i: nat)
    requires o == Driven(Honest(data, s), s, pageSize, startPage, 0, maxPages)
    requires i < |o.requests|
    ensures o.requests[i].size == EffectiveSize(pageSize)
    ensures o.requests[i].position
         == if s.OffsetLimit? then i * EffectiveSize(pageSize) else EffectiveStart(startPage) + i
  {
    FreshDriverFetches(data, s, pageSize, startPage, maxPages);
    HonestRequests(data, s, EffectiveSize(pageSize), FirstPage(s, startPage), EffectivePages(maxPages), i,
                   FirstPage(s, startPage) + i);
    PositionFrom(s, EffectiveSize(pageSize), startPage, i);
  }

  lemma PositionFrom(s: Strategy, size: nat, startPage: int, i: nat)
    ensures Position(s, size, FirstPage(s, startPage) + i)
         == if s.OffsetLimit? then i * size else EffectiveStart(startPage) + i
  {
    OffsetIsProduct(size, i);
  }

  lemma FetchedByOffset<T>(data: seq<T>, size: nat, max: nat)
    requires size > 0 && max > 0
    ensures Offset(size, max) >= 0
    ensures var o := Fetched(data, OffsetLimit, size, 0, max);
            && (o.truncated <==> |data| >= Offset(size, max))
            && ItemsOf(o.pages) == Between(data, 0, Offset(size, max))
  {
    OffsetGrows(size, max, 0);
    HonestItems(data, OffsetLimit, size, 0, max);
    HonestTruncates(data, OffsetLimit, size, 0, max);
  }

  lemma FetchedByPage<T>(data: seq<T>, size: nat, max: nat)
    requires size > 0 && max > 0
    ensures Offset(size, max) >= 0
    ensures var o := Fetched(data, PageNumber, size, 0, max);
            && (o.truncated <==> |data| > Offset(size, max - 1))
            && ItemsOf(o.pages) == Between(data, 0, Offset(size, max))
  {
    OffsetGrows(size, max, 0);
    HonestItems(data, PageNumber, size, 0, max);
    HonestTruncates(data, PageNumber, size, 0, max);
  }

  // From the start of the dataset: all of it, or its first end items.
  lemma BetweenIsPrefix<T>(data: seq<T>, end: nat)
    ensures Between(data, 0, end) == if |data| >= end then data[..end] else data
  {
  }

  lemma OffsetsAreProducts<T>(data: seq<T>, size: nat, max: nat)
    requires size > 0 && max > 0
    ensures var o := Fetched(data, OffsetLimit, size, 0, max);
            && max * size >= 0
            && (o.truncated <==> |data| >= max * size)
            && ItemsOf(o.pages) == if |data| >= max * size then data[..max * size] else data
  {
    OffsetIsProduct(size, max);
    FetchedByOffset(data, size, max);
    BetweenIsPrefix(data, Offset(size, max));
  }

  lemma PagesAreProducts<T>(data: seq<T>, size: nat, max: nat)
    requires size > 0 && max > 0
    ensures var o := Fetched(data, PageNumber, size, 0, max);
            && max * size >= 0
            && (o.truncated <==> |data| > (max - 1) * size)
            && ItemsOf(o.pages) == if |data| >= max * size then data[..max * size] else data
  {
    OffsetIsProduct(size, max);
    OffsetIsProduct(size, max - 1);
    FetchedByPage(data, size, max);
    BetweenIsPrefix(data, Offset(size, max));
  }

  // By offset: everything, or exactly the first maxPages * pageSize items. The flag is set
  // already when those are all there are.
  lemma OffsetFetchesAllOrPrefix<T>(data: seq<T>, pageSize: int, maxPages: int, o: Outcome<T>)
    requires o == Driven(Honest(data, OffsetLimit), OffsetLimit, pageSize, 0, 0, maxPages)
    ensures var cap := EffectivePages(maxPages) * EffectiveSize(pageSize);
            && cap >= 0
            && (o.truncated <==> |data| >= cap)
            && ItemsOf(o.pages) == if o.truncated then data[..cap] else data
  {
    FreshDriverFetches(data, OffsetLimit, pageSize, 0, maxPages);
    OffsetsAreProducts(data, EffectiveSize(pageSize), EffectivePages(maxPages));
  }

  // By page number from the first page: the same items, but an empty page ends the run, so
  // the flag is set as soon as the last page allowed holds anything.
  lemma PagesFetchAllOrPrefix<T>(data: seq<T>, pageSize: int, maxPages: int, o: Outcome<T>)
    requires o == Driven(Honest(data, PageNumber), PageNumber, pageSize, 0, 0, maxPages)
    ensures var size, max := EffectiveSize(pageSize), EffectivePages(maxPages);
            && max * size >= 0
            && (o.truncated <==> |data| > (max - 1) * size)
            && ItemsOf(o.pages) == if |data| >= max * size then data[..max * size] else data
  {
    FreshDriverFetches(data, PageNumber, pageSize, 0, maxPages);
    PagesAreProducts(data, EffectiveSize(pageSize), EffectivePages(maxPages));
  }

  // A paginator that has been driven before keeps its offset, say page j's: the second
  // page of its next run skips j pages of the dataset.
  lemma ReusedPaginatorSkips<T>(data: seq<T>, pageSize: int, maxPages: int, j: nat, o: Outcome<T>)
    requires o == Driven(Honest(data, OffsetLimit), OffsetLimit, pageSize, 0, Offset(EffectiveSize(pageSize), j),
                         maxPages)
    ensures var size := EffectiveSize(pageSize);
            var next, end := Offset(size, j + 1), Offset(size, j + EffectivePages(maxPages));
            0 <= next <= end && ItemsOf(o.pages) == Between(data, 0, size) + Between(data, next, end)
  {
    ReusedStep(data, EffectiveSize(pageSize), EffectivePages(maxPages), j);
    ReusedItems(data, EffectiveSize(pageSize), EffectivePages(maxPages), j, o);
  }

  // Page 0, and pages j + 1 and on unless that was the last.
  function ReusedFetched<T>(data: seq<T>, size: nat, max: nat, j: nat): Outcome<T>
    requires size > 0 && max > 0
  {
    var page, req := PageAt(data, size, 0), RequestFor(OffsetLimit, size, 0);
    if IsLast(OffsetLimit, size, |data|, 0) then Outcome([page], [req], false, false)
    else Behind([page], [req], Fetched(data, OffsetLimit, size, j + 1, max - 1))
  }

  lemma ReusedPages<T>(data: seq<T>, size: nat, max: nat, j: nat)
    requires size > 0 && max > 0
    ensures ReusedFetched(data, size, max, j).pages
         == [PageAt(data, size, 0)]
          + if IsLast(OffsetLimit, size, |data|, 0) then [] else Fetched(data, OffsetLimit, size, j + 1, max - 1).pages
  {
  }

  lemma ItemsFrom<T>(data: seq<T>, size: nat, max: nat, j: nat)
    requires size > 0 && max > 0
    ensures Offset(size, j + 1) <= Offset(size, j + max)
    ensures ItemsOf(Fetched(data, OffsetLimit, size, j + 1, max - 1).pages)
         == Between(data, Offset(size, j + 1), Offset(size, j + max))
  {
    assert j + 1 + (max - 1) == j + max;
    ItemsTo(data, OffsetLimit, size, j + 1, max - 1, Offset(size, j + max));
  }

  lemma ReusedItems<T>(data: seq<T>, size: nat, max: nat, j: nat, o: Outcome<T>)
    requires size > 0 && max > 0 && o == ReusedFetched(data, size, max, j)
    ensures var next, end := Offset(size, j + 1), Offset(size, j + max);
            next <= end && ItemsOf(o.pages) == Between(data, 0, size) + Between(data, next, end)
  {
    ReusedPages(data, size, max, j);
    ItemsFrom(data, size, max, j);
    FirstItems(data, size);
    if IsLast(OffsetLimit, size, |data|, 0) {
      ItemsBehind(PageAt(data, size, 0), []);
      NothingPastEnd(data, size, j, j + max);
    } else {
      ItemsBehind(PageAt(data, size, 0), Fetched(data, OffsetLimit, size, j + 1, max - 1).pages);
    }
  }

  lemma FirstItems<T>(data: seq<T>, size: nat)
    requires size > 0
    ensures PageAt(data, size, 0).items == Between(data, 0, size)
  {
    assert Offset(size, 0) == 0 && Offset(size, 1) == size;
  }

  lemma NothingPastEnd<T>(data: seq<T>, size: nat, j: nat, end: nat)
    requires size > 0 && |data| <= size && Offset(size, j + 1) <= Offset(size, end)
    ensures Between(data, Offset(size, j + 1), Offset(size, end)) == []
    ensures Between(data, 0, size) + [] == Between(data, 0, size)
  {
    OffsetGrows(size, 1, j);
    assert j + 1 == 1 + j;
  }

  lemma ReusedDrive<T>(server: Server<T>, data: seq<T>, size: nat, max: nat, j: nat, next: nat)
    requires size > 0 && max > 0 && next == Offset(size, j) + size
    requires server(0, Request(0, size)) == Some(PageAt(data, size, 0))
    requires IsLast(OffsetLimit, size, |data|, 0) <==> Stops(OffsetLimit, size, PageAt(data, size, 0).count)
    requires Drive(server, OffsetLimit, size, 1, next, next, max - 1)
          == Fetched(data, OffsetLimit, size, j + 1, max - 1)
    ensures Drive(server, OffsetLimit, size, 0, 0, Offset(size, j), max) == ReusedFetched(data, size, max, j)
  {
    DriveOn(server, OffsetLimit, size, 0, 0, Offset(size, j), max, PageAt(data, size, 0));
  }

  lemma ReusedRest<T>(data: seq<T>, size: nat, max: nat, j: nat, next: nat)
    requires size > 0 && max > 0 && next == Position(OffsetLimit, size, j + 1)
    ensures Drive(Honest(data, OffsetLimit), OffsetLimit, size, 1, next, next, max - 1)
         == Fetched(data, OffsetLimit, size, j + 1, max - 1)
  {
    HonestDrive(data, OffsetLimit, size, 1, j + 1, max - 1);
  }

  lemma FirstReply<T>(data: seq<T>, size: nat)
    requires size > 0
    ensures Honest(data, OffsetLimit)(0, Request(0, size)) == Some(PageAt(data, size, 0))
    ensures IsLast(OffsetLimit, size, |data|, 0) <==> Stops(OffsetLimit, size, PageAt(data, size, 0).count)
  {
    assert RequestFor(OffsetLimit, size, 0) == Request(0, size);
    HonestReply(data, OffsetLimit, size, 0, 0);
  }

  lemma ReusedStep<T>(data: seq<T>, size: nat, max: nat, j: nat)
    requires size > 0 && max > 0
    ensures Drive(Honest(data, OffsetLimit), OffsetLimit, size, 0, 0, Offset(size, j), max)
         == ReusedFetched(data, size, max, j)
  {
    var next := Offset(size, j) + size;
    FirstReply(data, size);
    ReusedRest(data, size, max, j, next);
    ReusedDrive(Honest(data, OffsetLimit), data, size, max, j, next);
  }

  // ---- The REST connector ----

  const DEFAULT_ROW_LIMIT: int := 1000

  function EffectiveRowLimit(requested: int, maxRowLimit: int): int {
    if requested <= 0 then DEFAULT_ROW_LIMIT else if requested > maxRowLimit then maxRowLimit else requested
  }

  function Take<T>(items: seq<T>, limit: nat): seq<T> {
    items[..Least(limit, |items|)]
  }

  lemma TakeMore<T>(rows: seq<T>, items: seq<T>, limit: nat)
    requires |rows| <= limit
    ensures Take(rows, limit) == rows
    ensures |rows| + |items| > limit ==> forall more :: Take(rows + items + more, limit) == Take(rows + items, limit)
  {
  }

  datatype QueryError = TransportFailed | BadStatus(status: int) | BadBody(fault: Fault)

  function PageError<T>(page: Page<T>): Option<QueryError> {
    if page.IsError() then Some(BadStatus(page.status))
    else if page.fault.Some? then Some(BadBody(page.fault.value))
    else None
  }

  ghost predicate AllGood<T>(pages: seq<Page<T>>) {
    forall page :: page in pages ==> PageError(page).None?
  }

  // The rows kept of the pages behind the rows so far, and whether any were left out; a bad
  // page counts unless the limit was hit before it.
  function Collect(rows: seq<Row>, pages: seq<Page<Row>>, limit: nat): Result<(seq<Row>, bool), QueryError>
    decreases |pages|
  {
    if pages == [] then Ok((rows, false))
    else
      var error := PageError(pages[0]);
      if error.Some? then Err(error.value)
      else
        var all := rows + pages[0].items;
        if |all| > limit then Ok((Take(all, limit), true)) else Collect(all, pages[1..], limit)
  }

  lemma TakeFirst<T>(rows: seq<T>, items: seq<T>, i: nat)
    requires i <= |items|
    ensures Take(rows + items, |rows| + i) == rows + items[..i]
    ensures |rows + items| <= |rows| + i ==> forall limit: nat :: limit >= |rows| + i ==>
              Take(rows + items, limit) == rows + items[..i]
  {
  }

  lemma TakeNext<T>(rows: seq<T>, items: seq<T>, i: nat)
    requires i < |items|
    ensures rows + items[..i] + [items[i]] == rows + items[..i + 1]
  {
  }

  // The closure of Execute: one page's items into the shared frame.
  method AppendPage(frame: Frame, items: seq<Row>, limit: nat, ghost rows: seq<Row>) returns (truncated: bool)
    requires BuiltFrom(frame.View(), rows) && |rows| <= limit
    modifies frame
    ensures BuiltFrom(frame.View(), Take(rows + items, limit))
    ensures truncated <==> |rows| + |items| > limit
  {
    assert rows + items[..0] == rows && rows + items[..|items|] == rows + items;
    for i := 0 to |items|
      invariant |rows| + i <= limit
      invariant BuiltFrom(frame.View(), rows + items[..i])
    {
      if frame.numRows >= limit {
        TakeFirst(rows, items, i);
        return true;
      }
      AppendBuilt(frame, items[i], rows + items[..i]);
      TakeNext(rows, items, i);
    }
    TakeFirst(rows, items, |items|);
    return false;
  }

  // The page loop of Execute.
  method AppendPages(frame: Frame, pages: seq<Page<Row>>, limit: nat) returns (r: Result<bool, QueryError>)
    requires BuiltFrom(frame.View(), [])
    modifies frame
    ensures var kept := Collect([], pages, limit);
            if kept.Err? then r == Err(kept.error)
            else r == Ok(kept.value.1) && BuiltFrom(frame.View(), kept.value.0)
  {
    ghost var rows: seq<Row> := [];
    for i := 0 to |pages|
      invariant |rows| <= limit && BuiltFrom(frame.View(), rows)
      invariant Collect([], pages, limit) == Collect(rows, pages[i..], limit)
    {
      assert pages[i..][0] == pages[i] && pages[i..][1..] == pages[i + 1..];
      if pages[i].IsError() {
        return Err(BadStatus(pages[i].status));
      }
      if pages[i].fault.Some? {
        return Err(BadBody(pages[i].fault.value));
      }
      var truncated := AppendPage(frame, pages[i].items, limit, rows);
      if truncated {
        return Ok(true);
      }
      rows := rows + pages[i].items;
      TakeMore(rows, [], limit);
    }
    return Ok(false);
  }

  // With no bad page: exactly the first limit items fetched, flagged exactly when there
  // were more.
  lemma {:induction false} KeepsFirstLimit(rows: seq<Row>, pages: seq<Page<Row>>, limit: nat)
    requires |rows| <= limit
    requires AllGood(pages)
    ensures var all := rows + ItemsOf(pages);
            Collect(rows, pages, limit) == Ok((Take(all, limit), |all| > limit))
    decreases |pages|
  {
    if pages == [] {
      assert rows + [] == rows;
      TakeMore(rows, [], limit);
    } else {
      var items, more := pages[0].items, ItemsOf(pages[1..]);
      assert rows + ItemsOf(pages) == rows + items + more;
      if |rows + items| > limit {
        TakeMore(rows, items, limit);
      } else {
        KeepsFirstLimit(rows + items, pages[1..], limit);
      }
    }
  }

  // The workflow's own page limit, or the configured one.
  function MaxPagesOf(specified: int, configured: int): int {
    if specified > 0 then specified else configured
  }

  // What the answer shows of the rows kept: its columns are cut last.
  ghost predicate Answers(t: Table, rows: seq<Row>, truncated: bool, maxColumns: int) {
    exists built: Table ::
      BuiltFrom(built, rows)
      && t == Narrowed(built, maxColumns).(truncated := truncated || Narrowed(built, maxColumns).truncated)
  }

  // A paginated REST query.
  method Execute(server: Server<Row>, s: Strategy, pageSize: int, specifiedPages: int, configuredPages: int,
                 rowLimit: int, maxRowLimit: nat, maxColumns: int)
    returns (r: Result<Frame, QueryError>)
    ensures var o := Driven(server, s, pageSize, 0, 0, MaxPagesOf(specifiedPages, configuredPages));
            var kept := Collect([], o.pages, EffectiveRowLimit(rowLimit, maxRowLimit));
            if o.failed then r == Err(TransportFailed)
            else if kept.Err? then r == Err(kept.error)
            else r.Ok? && fresh(r.value) && Answers(r.value.View(), kept.value.0, kept.value.1, maxColumns)
  {
    var frame := new Frame();
    var paginator := new Paginator(s, pageSize, 0);
    var result := DoPaginated(server, paginator, MaxPagesOf(specifiedPages, configuredPages));
    if result.failed {
      return Err(TransportFailed);
    }
    var truncated := AppendPages(frame, result.pages, EffectiveRowLimit(rowLimit, maxRowLimit));
    if truncated.Err? {
      return Err(truncated.error);
    }
    ghost var built := frame.View();
    frame.LimitColumns(maxColumns);
    frame.truncated := truncated.value || frame.truncated;
    ghost var narrow := Narrowed(built, maxColumns);
    assert frame.View() == narrow.(truncated := truncated.value || narrow.truncated);
    return Ok(frame);
  }

  // Against an honest server: the rows are the first limit of the dataset, of which the
  // page limit may have kept back the end.
  lemma QueryShowsPrefix(data: seq<Row>, pageSize: int, maxPages: int, limit: nat, o: Outcome<Row>)
    requires o == Driven(Honest(data, OffsetLimit), OffsetLimit, pageSize, 0, 0, maxPages)
    ensures var cap := EffectivePages(maxPages) * EffectiveSize(pageSize);
            && cap >= 0
            && Collect([], o.pages, limit) == Ok((Take(data, Least(cap, limit)), Least(cap, |data|) > limit))
  {
    OffsetFetchesAllOrPrefix(data, pageSize, maxPages, o);
    HonestPagesAreGood(data, pageSize, maxPages, o);
    PrefixOfPrefix(data, ItemsOf(o.pages), EffectivePages(maxPages) * EffectiveSize(pageSize), limit);
    KeepsFirstLimit([], o.pages, limit);
  }

  lemma PrefixOfPrefix<T>(data: seq<T>, items: seq<T>, cap: nat, limit: nat)
    requires items == if |data| >= cap then data[..cap] else data
    ensures Take([] + items, limit) == Take(data, Least(cap, limit)) && |[] + items| == Least(cap, |data|)
  {
  }

  lemma HonestPagesAreGood<T>(data: seq<T>, pageSize: int, maxPages: int, o: Outcome<T>)
    requires o == Driven(Honest(data, OffsetLimit), OffsetLimit, pageSize, 0, 0, maxPages)
    ensures AllGood(o.pages)
  {
    FreshDriverFetches(data, OffsetLimit, pageSize, 0, maxPages);
    FetchedPagesAreGood(data, OffsetLimit, EffectiveSize(pageSize), 0, EffectivePages(maxPages));
  }

  lemma {:induction false} FetchedPagesAreGood<T>(data: seq<T>, s: Strategy, size: nat, k: nat, left: nat)
    requires size > 0
    ensures AllGood(Fetched(data, s, size, k, left).pages)
    decreases left
  {
    if left > 0 && !IsLast(s, size, |data|, k) {
      FetchedPagesAreGood(data, s, size, k + 1, left - 1);
    }
  }
}
