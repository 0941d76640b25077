/** controller/paging.go: reading the page of a request and filling the links to its neighbours. */
module Paging {
  import opened Prelude
  import opened Strconv

  const PAGE_SIZE_DEFAULT := 20
  const PAGE_SIZE_MAX := 500

  function ComputePagingLimits(offsetParam: Option<string>, limitParam: Option<int>): (page: (int, int))
    ensures 0 <= page.0 <= MAX64 && 1 <= page.1 <= PAGE_SIZE_MAX
    ensures page.0 > 0 ==> offsetParam.Some? && Atoi(offsetParam.value) == Some(page.0)
    ensures forall n :: n >= 0 && offsetParam.Some? && Atoi(offsetParam.value) == Some(n) ==> page.0 == n
    ensures limitParam.None? || limitParam.value <= 0 ==> page.1 == PAGE_SIZE_DEFAULT
    ensures limitParam.Some? && limitParam.value > 0 ==> page.1 == Least(limitParam.value, PAGE_SIZE_MAX)
  {
    var parsed :=
      match offsetParam
      case None => 0
      case Some(s) => (match Atoi(s) case None => 0 case Some(v) => v);
    var offset := if parsed < 0 then 0 else parsed;
    var limit :=
      match limitParam
      case None => PAGE_SIZE_DEFAULT
      case Some(l) => if l <= 0 then PAGE_SIZE_DEFAULT else if l > PAGE_SIZE_MAX then PAGE_SIZE_MAX else l;
    (offset, limit)
  }

  // The limits a request ends up with: 20 unless it asks for a positive number, and never more than 500.
  lemma LimitsMean(offsetParam: Option<string>, limitParam: Option<int>)
    ensures limitParam.None? || limitParam.value <= 0 ==> ComputePagingLimits(offsetParam, limitParam).1 == 20
    ensures limitParam.Some? && 0 < limitParam.value <= 500 ==> ComputePagingLimits(offsetParam, limitParam).1 == limitParam.value
    ensures limitParam.Some? && limitParam.value > 500 ==> ComputePagingLimits(offsetParam, limitParam).1 == 500
  {
  }

  // The two numbers a link carries in its query.
  datatype Link = Link(offset: int, limit: int)

  // What a request that follows the link is understood to ask for.
  function ReadBack(l: Link): Link {
    var (o, n) := ComputePagingLimits(Some(Itoa(l.offset)), Some(l.limit));
    Link(o, n)
  }

  // ---- The links in mathematical integers ----

  // The page `q` pages before `offset`, cut at the start of the range.
  function Back(offset: int, limit: int, q: int): Link {
    var start := offset - q * limit;
    if start < 0 then Link(0, limit + start) else Link(start, limit)
  }

  function Prev(offset: int, limit: int, total: int): Option<Link>
    requires limit > 0
  {
    if offset > 0 && total > 0 then
      Some(Back(offset, limit, if offset <= total then 1 else (offset - total) / limit + 1))
    else None
  }

  function Next(current: int, offset: int, limit: int, total: int): Option<Link> {
    if Wrap64(offset + current) < total then Some(Link(Wrap64(offset + current), limit)) else None
  }

  function First(offset: int, limit: int): Link
    requires limit > 0
  {
    Link(0, if offset > 0 then offset % limit else limit)
  }

  function Last(offset: int, limit: int, total: int): Link
    requires limit > 0
  {
    if offset < total then Link(offset + (total - offset - 1) / limit * limit, limit)
    else Back(offset, limit, (offset - total) / limit + 1)
  }

  class PagingLinks {
    var prev: Option<Link>
    var next: Option<Link>
    var first: Option<Link>
    var last: Option<Link>

    constructor ()
      ensures prev == None && next == None && first == None && last == None
    {
      prev, next, first, last := None, None, None, None;
    }
  }

  predicate PageOk(offset: int, limit: int, total: int) {
    0 <= offset <= MAX64 && 1 <= limit <= PAGE_SIZE_MAX && 0 <= total <= MAX64
  }

  // The computation in 64-bit arithmetic: products and sums may wrap around on the way. Only the start of the next
  // page can end up wrapped around, which is a part of Next.
  method SetPagingLinks(links: PagingLinks, current: int, offset: int, limit: int, total: int)
    requires PageOk(offset, limit, total) && Is64(current)
    modifies links
    ensures links.prev == (if Prev(offset, limit, total).Some? then Prev(offset, limit, total) else old(links.prev))
    ensures links.next == (if Next(current, offset, limit, total).Some? then Next(current, offset, limit, total) else old(links.next))
    ensures links.first == Some(First(offset, limit))
    ensures links.last == Some(Last(offset, limit, total))
  {
    if offset > 0 && total > 0 {
      var prev := PrevLink(offset, limit, total);
      links.prev := Some(prev);
    }
    var nextStart := Wrap64(offset + current);
    if nextStart < total {
      links.next := Some(Link(nextStart, limit));
    }
    var firstEnd: int;
    if offset > 0 {
      firstEnd := offset % limit;
    } else {
      firstEnd := limit;
    }
    links.first := Some(Link(0, firstEnd));
    var last := LastLink(offset, limit, total);
    links.last := Some(last);
  }

  method PrevLink(offset: int, limit: int, total: int) returns (prev: Link)
    requires PageOk(offset, limit, total) && offset > 0 && total > 0
    ensures Prev(offset, limit, total) == Some(prev)
  {
    var prevStart: int;
    if offset <= total {
      prevStart := Wrap64(offset - limit);
      WrapIsIdentity(offset - limit);
      assert 1 * limit == limit;
    } else {
      prevStart := Retreat(offset, limit, total);
    }
    prev := CutAtStart(prevStart, limit);
  }

  method LastLink(offset: int, limit: int, total: int) returns (last: Link)
    requires PageOk(offset, limit, total)
    ensures last == Last(offset, limit, total)
  {
    var lastStart: int;
    if offset < total {
      lastStart := Advance(offset, limit, total);
    } else {
      lastStart := Retreat(offset, limit, total);
    }
    last := CutAtStart(lastStart, limit);
  }

  // A page that would start before 0 is cut to start there.
  method CutAtStart(start: int, limit: int) returns (l: Link)
    requires -limit <= start <= MAX64 && 1 <= limit <= PAGE_SIZE_MAX
    ensures l == if start < 0 then Link(0, limit + start) else Link(start, limit)
  {
    var realLimit, s := limit, start;
    if s < 0 {
      realLimit := Wrap64(limit + s);
      WrapIsIdentity(limit + s);
      s := 0;
    }
    return Link(s, realLimit);
  }

  // At least one page back, and until the page covers the end of the range.
  method Retreat(offset: int, limit: int, total: int) returns (start: int)
    requires PageOk(offset, limit, total) && offset >= total
    ensures start == offset - ((offset - total) / limit + 1) * limit
    ensures -limit <= start < total
  {
    start := Wrap64(offset - Wrap64(Wrap64(Wrap64(offset - total) / limit + 1) * limit));
    BackFits(offset, limit, total);
  }

  // Some pages on, until the next one would start past the end.
  method Advance(offset: int, limit: int, total: int) returns (start: int)
    requires PageOk(offset, limit, total) && offset < total
    ensures start == offset + (total - offset - 1) / limit * limit
    ensures offset <= start < total
  {
    start := Wrap64(offset + Wrap64(Wrap64(Wrap64(Wrap64(total - offset) - 1) / limit) * limit));
    ForwardFits(offset, limit, total);
  }

  lemma GrowsWithFactor(k: int, l: int)
    requires l >= 1
    ensures k >= 0 ==> k * l >= k
    ensures k >= 1 ==> k * l >= l
    ensures k <= -1 ==> k * l <= -l
  {
    if k >= 0 {
      assert k * l == k + k * (l - 1);
      assert k * (l - 1) >= 0;
    }
    if k >= 1 {
      assert k * l == l + (k - 1) * l;
      assert (k - 1) * l >= 0;
    }
    if k <= -1 {
      assert k * l == -l + (k + 1) * l;
      assert (-k - 1) * l >= 0;
    }
  }

  lemma Divided(d: int, l: int)
    requires d >= 0 && l > 0
    ensures d == d / l * l + d % l && 0 <= d % l < l && 0 <= d / l <= d
  {
    assert d == d / l * l + d % l;
    GrowsWithFactor(d / l, l);
  }

  // One page more than fits into d reaches beyond d, by at most a page.
  lemma PagesBeyond(d: int, limit: int)
    requires d >= 0 && limit > 0
    ensures d < (d / limit + 1) * limit <= d + limit
  {
    Divided(d, limit);
    var q := d / limit;
    assert (q + 1) * limit == q * limit + limit;
  }

  lemma PagesWithin(d: int, limit: int)
    requires d >= 0 && limit > 0
    ensures 0 <= d / limit * limit <= d < d / limit * limit + limit
  {
    Divided(d, limit);
    GrowsWithFactor(d / limit, limit);
  }

  lemma BackFits(offset: int, limit: int, total: int)
    requires PageOk(offset, limit, total) && offset >= total
    ensures var start := offset - ((offset - total) / limit + 1) * limit;
            && -limit <= start < total <= start + limit
            && Wrap64(offset - total) == offset - total
            && Wrap64(offset - Wrap64(Wrap64((offset - total) / limit + 1) * limit)) == start
  {
    PagesBeyond(offset - total, limit);
    WrapIsIdentity(offset - total);
    WrapBack(offset, (offset - total) / limit + 1, limit);
  }

  lemma ForwardFits(offset: int, limit: int, total: int)
    requires PageOk(offset, limit, total) && offset < total
    ensures var start := offset + (total - offset - 1) / limit * limit;
            && offset <= start < total <= start + limit
            && Wrap64(total - offset) == total - offset
            && Wrap64(total - offset - 1) == total - offset - 1
            && Wrap64(offset + Wrap64(Wrap64((total - offset - 1) / limit) * limit)) == start
  {
    PagesWithin(total - offset - 1, limit);
    WrapIsIdentity(total - offset);
    WrapIsIdentity(total - offset - 1);
    WrapOn(offset, (total - offset - 1) / limit, limit);
  }

  // ---- Where the links lead ----

  // The end of page `l` lies on the grid of pages through `offset`, and only a page cut at 0 is shorter.
  predicate OnGrid(l: Link, offset: int, limit: int)
    requires limit > 0
  {
    && (offset - (l.offset + l.limit)) % limit == 0
    && l.offset >= 0 && 0 < l.limit <= limit
    && (l.limit == limit || l.offset == 0)
  }

  lemma Multiple(q: int, l: int)
    requires l > 0
    ensures (q * l) % l == 0
  {
    var x := q * l;
    var k, r := q - x / l, x % l;
    assert x == x / l * l + r;
    assert k * l == q * l - x / l * l;
    GrowsWithFactor(k, l);
  }

  // The last page reaches the end of a non-empty range and starts before it.
  lemma LastCoversTheEnd(offset: int, limit: int, total: int)
    requires PageOk(offset, limit, total) && total > 0
    ensures var l := Last(offset, limit, total);
            l.offset < total <= l.offset + l.limit && OnGrid(l, offset, limit)
  {
    if offset < total {
      ForwardFits(offset, limit, total);
      ForwardOnGrid(offset, limit, (total - offset - 1) / limit);
    } else {
      RetreatCovers(offset, limit, total);
    }
  }

  lemma RetreatCovers(offset: int, limit: int, total: int)
    requires PageOk(offset, limit, total) && offset >= total > 0
    ensures var l := Back(offset, limit, (offset - total) / limit + 1);
            l.offset < total <= l.offset + l.limit <= offset && OnGrid(l, offset, limit)
  {
    BackFits(offset, limit, total);
    Divided(offset - total, limit);
    BackOnGrid(offset, limit, (offset - total) / limit + 1);
  }

  lemma ForwardOnGrid(offset: int, limit: int, q: int)
    requires limit > 0 && offset + q * limit >= 0
    ensures OnGrid(Link(offset + q * limit, limit), offset, limit)
  {
    Multiple(-q - 1, limit);
    assert offset - (offset + q * limit + limit) == (-q - 1) * limit;
  }

  lemma BackOnGrid(offset: int, limit: int, q: int)
    requires limit > 0 && q >= 1 && -limit < offset - q * limit
    ensures OnGrid(Back(offset, limit, q), offset, limit)
    ensures var l := Back(offset, limit, q); l.offset + l.limit == offset - q * limit + limit
  {
    Multiple(q - 1, limit);
    assert offset - (offset - q * limit + limit) == (q - 1) * limit;
  }

  // The previous page ends where this one starts, or, from past the end, covers the end of the range.
  lemma PrevIsAdjacent(offset: int, limit: int, total: int)
    requires PageOk(offset, limit, total) && offset > 0 && total > 0
    ensures var l := Prev(offset, limit, total).value;
            && OnGrid(l, offset, limit)
            && l.offset < total && l.offset < offset
            && (if offset <= total then l.offset + l.limit == offset else total <= l.offset + l.limit <= offset)
  {
    if offset <= total {
      BackOnGrid(offset, limit, 1);
    } else {
      RetreatCovers(offset, limit, total);
    }
  }

  lemma ReadsBack(l: Link)
    requires 0 <= l.offset <= MAX64
    ensures ReadBack(l) == l <==> 1 <= l.limit <= PAGE_SIZE_MAX
  {
    RoundTrip(l.offset);
  }

  // Whether the sum that a next link starts at fits into 64 bits, a caller can tell beforehand.
  lemma NextStart(current: int, offset: int)
    requires 0 <= current <= MAX64 && 0 <= offset <= MAX64
    ensures Wrap64(offset + current) == if offset + current <= MAX64 then offset + current else offset + current - RANGE64
  {
    if offset + current <= MAX64 {
      WrapIsIdentity(offset + current);
    } else {
      WrapShift(offset + current - RANGE64, 1);
      WrapIsIdentity(offset + current - RANGE64);
    }
  }

  // A next page is offered when there are rows left, and also whenever its start overflows.
  lemma NextOfferedIff(current: int, offset: int, limit: int, total: int)
    requires PageOk(offset, limit, total) && 0 <= current <= MAX64
    ensures Next(current, offset, limit, total).Some? <==> offset + current < total || offset + current > MAX64
    ensures offset + current < total ==> Next(current, offset, limit, total) == Some(Link(offset + current, limit))
  {
    NextStart(current, offset);
  }

  // Previous links always read back as they were written, next links exactly when their start does not overflow.
  // One that does overflow leads back to the first row.
  lemma PrevAndNextReadBack(current: int, offset: int, limit: int, total: int)
    requires PageOk(offset, limit, total) && 0 <= current <= MAX64
    ensures Prev(offset, limit, total).Some? <==> offset > 0 && total > 0
    ensures Prev(offset, limit, total).Some? ==> ReadBack(Prev(offset, limit, total).value) == Prev(offset, limit, total).value
    ensures var next := Next(current, offset, limit, total);
            next.Some? ==>
              && (ReadBack(next.value) == next.value <==> offset + current <= MAX64)
              && (offset + current > MAX64 ==> ReadBack(next.value) == Link(0, limit))
  {
    if offset > 0 && total > 0 {
      PrevIsAdjacent(offset, limit, total);
      ReadsBack(Prev(offset, limit, total).value);
    }
    NextStart(current, offset);
    var next := Next(current, offset, limit, total);
    if next.Some? {
      if next.value.offset >= 0 {
        ReadsBack(next.value);
      } else {
        RoundTrip(next.value.offset);
      }
    }
  }

  // The first page starts at 0 and ends at the first place from which whole pages lead to the offset.
  lemma FirstEndsOnGrid(offset: int, limit: int)
    requires PageOk(offset, limit, 0)
    ensures var l := First(offset, limit);
            && l.offset == 0 && 0 <= l.limit <= limit && (l.limit == limit <==> offset == 0)
            && exists pages :: pages >= (if offset == 0 then -1 else 0) && offset == l.limit + pages * limit
  {
    var l := First(offset, limit);
    Divided(offset, limit);
    var pages := if offset == 0 then -1 else offset / limit;
    assert offset == l.limit + pages * limit;
  }

  // When there are no rows the last page is cut to end where the first one does.
  lemma LastOfNothing(offset: int, limit: int)
    requires PageOk(offset, limit, 0)
    ensures Last(offset, limit, 0) == Link(0, if offset == 0 then 0 else First(offset, limit).limit)
  {
    Divided(offset, limit);
    assert (offset / limit + 1) * limit == offset / limit * limit + limit;
    assert offset - (offset / limit + 1) * limit == offset % limit - limit;
  }

  // The first link reads back exactly when the page is the first one or does not lie on the grid through 0:
  // a positive multiple of the limit makes it ask for no rows, which is understood as the default.
  lemma FirstReadsBackIff(offset: int, limit: int)
    requires PageOk(offset, limit, 0)
    ensures ReadBack(First(offset, limit)) == First(offset, limit) <==> offset == 0 || offset % limit != 0
  {
    ReadsBack(First(offset, limit));
  }

  // The last link reads back exactly when there is something to page through, or the page is off the grid.
  lemma LastReadsBackIff(offset: int, limit: int, total: int)
    requires PageOk(offset, limit, total)
    ensures ReadBack(Last(offset, limit, total)) == Last(offset, limit, total) <==> total > 0 || offset % limit != 0
  {
    if total > 0 {
      LastCoversTheEnd(offset, limit, total);
    } else {
      Divided(offset, limit);
      assert (offset / limit + 1) * limit == offset / limit * limit + limit;
      assert offset - (offset / limit + 1) * limit == offset % limit - limit;
      assert Last(offset, limit, total) == Link(0, offset % limit);
    }
    ReadsBack(Last(offset, limit, total));
  }

  // ---- Walking through the pages ----

  function Page<T>(rows: seq<T>, l: Link): seq<T>
    requires l.offset >= 0 && l.limit >= 0
  {
    var n := |rows|;
    rows[Least(l.offset, n)..Least(l.offset + l.limit, n)]
  }

  function Concat<T>(pages: seq<seq<T>>): seq<T> {
    if pages == [] then [] else pages[0] + Concat(pages[1..])
  }

  predicate Asked(l: Link) {
    0 <= l.offset <= MAX64 && 1 <= l.limit <= PAGE_SIZE_MAX
  }

  // The pages a client is served that follows the next links from page `l`, each link as it reads back.
  function FollowNext<T>(rows: seq<T>, l: Link): seq<seq<T>>
    requires Asked(l) && |rows| <= MAX64
    decreases if l.offset < |rows| then |rows| - l.offset else 0
  {
    var page := Page(rows, l);
    match Next(|page|, l.offset, l.limit, |rows|)
    case None => [page]
    case Some(next) =>
      PageEnds(rows, l);
      ReadsBack(next);
      [page] + FollowNext(rows, ReadBack(next))
  }

  // With the page length as current count the next page starts where this one ends, without overflow.
  lemma PageEnds<T>(rows: seq<T>, l: Link)
    requires Asked(l) && |rows| <= MAX64
    ensures var next := Next(|Page(rows, l)|, l.offset, l.limit, |rows|);
            && (next.Some? <==> l.offset + l.limit < |rows|)
            && (next.Some? ==> next.value == Link(l.offset + l.limit, l.limit))
  {
    WrapIsIdentity(l.offset + |Page(rows, l)|);
  }

  lemma PageThenRest<T>(rows: seq<T>, l: Link)
    requires Asked(l)
    ensures l.offset + l.limit < |rows| ==> Page(rows, l) + rows[l.offset + l.limit..] == rows[l.offset..]
    ensures l.offset + l.limit >= |rows| ==> Page(rows, l) == rows[Least(l.offset, |rows|)..]
  {
  }

  // Following next links yields every row from the offset on exactly once and in order, and then stops.
  lemma {:induction false} FollowNextYieldsTheRest<T>(rows: seq<T>, l: Link)
    requires Asked(l) && |rows| <= MAX64
    ensures Concat(FollowNext(rows, l)) == rows[Least(l.offset, |rows|)..]
    decreases if l.offset < |rows| then |rows| - l.offset else 0
  {
    PageEnds(rows, l);
    PageThenRest(rows, l);
    var page := Page(rows, l);
    match Next(|page|, l.offset, l.limit, |rows|)
    case None =>
      assert FollowNext(rows, l) == [page];
      assert [page][1..] == [];
      assert Concat([page]) == page;
    case Some(next) =>
      ReadsBack(next);
      FollowNextYieldsTheRest(rows, next);
      var rest := FollowNext(rows, next);
      assert FollowNext(rows, l) == [page] + rest;
      assert ([page] + rest)[1..] == rest;
  }

  // The pages before page `l`, in order, that a client is served that follows the previous links.
  function FollowPrev<T>(rows: seq<T>, l: Link): seq<seq<T>>
    requires Asked(l) && |rows| <= MAX64
    decreases l.offset
  {
    match Prev(l.offset, l.limit, |rows|)
    case None => []
    case Some(prev) =>
      PrevIsAdjacent(l.offset, l.limit, |rows|);
      ReadsBack(prev);
      FollowPrev(rows, ReadBack(prev)) + [Page(rows, ReadBack(prev))]
  }

  lemma {:induction false} ConcatAppend<T>(a: seq<seq<T>>, p: seq<T>)
    ensures Concat(a + [p]) == Concat(a) + p
  {
    if a == [] {
      assert a + [p] == [p] && [p][1..] == [];
    } else {
      assert (a + [p])[1..] == a[1..] + [p];
      ConcatAppend(a[1..], p);
    }
  }

  lemma StartThenPage<T>(rows: seq<T>, p: Link, end: int)
    requires 0 <= p.offset <= |rows| && 0 <= p.limit && end == Least(p.offset + p.limit, |rows|)
    ensures rows[..p.offset] + Page(rows, p) == rows[..end]
  {
  }

  // Following previous links, from wherever, yields every row before the offset exactly once and in order.
  lemma {:induction false} FollowPrevYieldsTheStart<T>(rows: seq<T>, l: Link)
    requires Asked(l) && |rows| <= MAX64
    ensures Concat(FollowPrev(rows, l)) == rows[..Least(l.offset, |rows|)]
    decreases l.offset
  {
    var before := Prev(l.offset, l.limit, |rows|);
    if before.Some? {
      var prev := before.value;
      PrevIsAdjacent(l.offset, l.limit, |rows|);
      ReadsBack(prev);
      FollowPrevYieldsTheStart(rows, prev);
      ConcatAppend(FollowPrev(rows, prev), Page(rows, prev));
      StartThenPage(rows, prev, Least(l.offset, |rows|));
    }
  }

  // A caller that passes the total as the length of the page offers no next page exactly when that start does
  // not overflow.
  lemma TotalAsCurrentHidesNextIff(offset: int, limit: int, total: int)
    requires PageOk(offset, limit, total)
    ensures Next(total, offset, limit, total) == None <==> offset + total <= MAX64
  {
    NextOfferedIff(total, offset, limit, total);
  }

  // From the largest offset on a single row, such a caller offers a next page, and it is the first one.
  lemma NextFromLargestOffset()
    ensures Next(1, MAX64, PAGE_SIZE_DEFAULT, 1) == Some(Link(MIN64, PAGE_SIZE_DEFAULT))
    ensures ReadBack(Link(MIN64, PAGE_SIZE_DEFAULT)) == Link(0, PAGE_SIZE_DEFAULT)
  {
    PrevAndNextReadBack(1, MAX64, PAGE_SIZE_DEFAULT, 1);
    NextStart(1, MAX64);
  }
}
