/** History and catch-up of a group's messages, which are listed by sequence, and following their cursors. */
module Pagination {
  import opened Basics

  type Sequence = nat

  const LIMIT_MAX: nat := 100

  ghost predicate Ascending(s: seq<Sequence>) {
    forall i, j | 0 <= i < j < |s| :: s[i] < s[j]
  }

  predicate Inside(n: Sequence, lo: Sequence, hi: Option<Sequence>) {
    lo < n && (hi.None? || n < hi.value)
  }

  /** The messages above `lo`, and below `hi` if there is one. */
  function Between(all: seq<Sequence>, lo: Sequence, hi: Option<Sequence>): (r: seq<Sequence>)
    ensures forall n :: n in r <==> n in all && Inside(n, lo, hi)
  {
    if all == [] then []
    else if Inside(all[0], lo, hi) then [all[0]] + Between(all[1..], lo, hi)
    else Between(all[1..], lo, hi)
  }

  lemma {:induction false} BetweenConcat(s: seq<Sequence>, t: seq<Sequence>, lo: Sequence, hi: Option<Sequence>)
    ensures Between(s + t, lo, hi) == Between(s, lo, hi) + Between(t, lo, hi)
  {
    if s == [] {
      assert s + t == t;
    } else {
      assert (s + t)[1..] == s[1..] + t;
      BetweenConcat(s[1..], t, lo, hi);
    }
  }

  /** Bounds that let the same elements through give the same list. */
  lemma {:induction false} BetweenAgree(all: seq<Sequence>, lo: Sequence, hi: Option<Sequence>, lo': Sequence, hi': Option<Sequence>)
    requires forall n | n in all :: Inside(n, lo, hi) == Inside(n, lo', hi')
    ensures Between(all, lo, hi) == Between(all, lo', hi')
  {
    if all != [] {
      assert all[0] in all && forall n | n in all[1..] :: n in all;
      BetweenAgree(all[1..], lo, hi, lo', hi');
    }
  }

  lemma {:induction false} BetweenNothing(all: seq<Sequence>, lo: Sequence, hi: Option<Sequence>)
    requires forall n | n in all :: !Inside(n, lo, hi)
    ensures Between(all, lo, hi) == []
  {
    if all != [] {
      assert all[0] in all && forall n | n in all[1..] :: n in all;
      BetweenNothing(all[1..], lo, hi);
    }
  }

  lemma DividesAtHead(all: seq<Sequence>, lo: Sequence, hi: Option<Sequence>)
    requires Ascending(all) && all != [] && Inside(all[0], lo, hi)
    ensures Between(all, lo, Some(all[0])) == [] && Between(all, all[0], hi) == Between(all[1..], lo, hi)
  {
    var c, tail := all[0], all[1..];
    assert forall n | n in tail :: c < n;
    BetweenNothing(tail, lo, Some(c));
    BetweenAgree(tail, c, hi, lo, hi);
  }

  lemma DividesBeyondHead(all: seq<Sequence>, lo: Sequence, hi: Option<Sequence>, c: Sequence)
    requires all != [] && all[0] < c && Inside(c, lo, hi)
    ensures Between(all, c, hi) == Between(all[1..], c, hi)
    ensures Between(all, lo, Some(c))
         == (if Inside(all[0], lo, hi) then [all[0]] else []) + Between(all[1..], lo, Some(c))
  {
  }

  function HeadOf(all: seq<Sequence>, lo: Sequence, hi: Option<Sequence>): seq<Sequence> {
    if all != [] && Inside(all[0], lo, hi) then [all[0]] else []
  }

  /** What divides the tail of a list divides the list. */
  lemma DividesStep(all: seq<Sequence>, lo: Sequence, hi: Option<Sequence>, i: nat)
    requires Ascending(all) && all != [] && i < |Between(all[1..], lo, hi)|
    requires var d := Between(all[1..], lo, hi);
             Between(all[1..], lo, Some(d[i])) == d[..i] && Between(all[1..], d[i], hi) == d[i + 1..]
    ensures var d := Between(all[1..], lo, hi);
            Between(all, lo, Some(d[i])) == HeadOf(all, lo, hi) + d[..i] && Between(all, d[i], hi) == d[i + 1..]
  {
    var d := Between(all[1..], lo, hi);
    assert d[i] in d && all[0] < d[i];
    DividesBeyondHead(all, lo, hi, d[i]);
  }

  lemma DivideConcat(h: seq<Sequence>, d: seq<Sequence>, k: nat)
    requires |h| <= k < |h| + |d|
    ensures var i := k - |h|; (h + d)[..k] == h + d[..i] && (h + d)[k] == d[i] && (h + d)[k + 1..] == d[i + 1..]
  {
  }

  /** An element divides an ascending list into what is below and what is above it. */
  lemma {:induction false} Divides(all: seq<Sequence>, lo: Sequence, hi: Option<Sequence>, k: nat)
    requires Ascending(all) && k < |Between(all, lo, hi)|
    ensures var e := Between(all, lo, hi);
            Between(all, lo, Some(e[k])) == e[..k] && Between(all, e[k], hi) == e[k + 1..]
  {
    var h, d := HeadOf(all, lo, hi), Between(all[1..], lo, hi);
    assert Between(all, lo, hi) == h + d;
    if k < |h| {
      DividesAtHead(all, lo, hi);
      assert ([all[0]] + d)[1..] == d;
    } else {
      Divides(all[1..], lo, hi, k - |h|);
      DividesStep(all, lo, hi, k - |h|);
      DivideConcat(h, d, k);
    }
  }

  lemma Associative(a: seq<Sequence>, b: seq<Sequence>, c: seq<Sequence>)
    ensures (a + b) + c == a + (b + c)
  {
  }

  datatype Page = Page(data: seq<Sequence>, hasMore: bool, nextCursor: Option<Sequence>)

  // ----- History -------------------------------------------------------------------------------------

  /** The page before `before`, or the newest one: the last of what lies there, at most `limit`. */
  function HistoryPage(all: seq<Sequence>, cleared: Option<Sequence>, before: Option<Sequence>, limit: nat): Page
    requires limit >= 1
  {
    var e := Between(all, cleared.GetOr(0), before);
    if |e| <= limit then Page(e, false, None) else Page(e[|e| - limit..], true, Some(e[|e| - limit]))
  }

  /** The page is the end of what lies before the cursor, and its own cursor divides what is left from it. */
  lemma HistoryPageSplits(all: seq<Sequence>, cleared: Option<Sequence>, before: Option<Sequence>, limit: nat)
    requires Ascending(all) && limit >= 1
    ensures var lo, page := cleared.GetOr(0), HistoryPage(all, cleared, before, limit);
            && Between(all, lo, before) == Left(all, lo, page.nextCursor) + page.data
            && (page.nextCursor.Some? ==> |page.data| == limit && page.nextCursor.value in Between(all, lo, before))
  {
    var e := Between(all, cleared.GetOr(0), before);
    if |e| > limit {
      Divides(all, cleared.GetOr(0), before, |e| - limit);
      assert e == e[..|e| - limit] + e[|e| - limit..];
    }
  }

  /** What a cursor leaves to be seen: nothing when there is no cursor. */
  function Left(all: seq<Sequence>, lo: Sequence, cursor: Option<Sequence>): seq<Sequence> {
    if cursor.Some? then Between(all, lo, cursor) else []
  }

  /** Later lists of the same group: messages were only added, each with a larger sequence than all before. */
  ghost predicate Grows(lists: seq<seq<Sequence>>) {
    forall j, k | 0 <= j <= k < |lists| :: Extends(lists, j, k)
  }

  ghost predicate Extends(lists: seq<seq<Sequence>>, j: nat, k: nat)
    requires j < |lists| && k < |lists|
  {
    Ascending(lists[j]) && Ascending(lists[k]) && lists[j] <= lists[k]
  }

  function CursorBefore(pages: seq<Page>, k: nat): Option<Sequence>
    requires k <= |pages|
  {
    if k == 0 then None else pages[k - 1].nextCursor
  }

  ghost predicate HistoryRequest(all: seq<Sequence>, pages: seq<Page>, cleared: Option<Sequence>, limit: nat, k: nat)
    requires limit >= 1 && k < |pages|
  {
    && pages[k] == HistoryPage(all, cleared, CursorBefore(pages, k), limit)
    && (k > 0 ==> CursorBefore(pages, k).Some?)
  }

  /** Pages that were asked for one after the other, each with the cursor of the last, on the list as it then was. */
  ghost predicate HistoryTraversal(lists: seq<seq<Sequence>>, pages: seq<Page>, cleared: Option<Sequence>, limit: nat)
    requires limit >= 1
  {
    && |lists| == |pages| && Grows(lists)
    && forall k | 0 <= k < |pages| :: HistoryRequest(lists[k], pages, cleared, limit, k)
  }

  /** The data of the first `k` pages, older pages first. */
  function HistoryData(pages: seq<Page>, k: nat): seq<Sequence>
    requires k <= |pages|
  {
    if k == 0 then [] else pages[k - 1].data + HistoryData(pages, k - 1)
  }

  lemma LaterListSameBelow(early: seq<Sequence>, late: seq<Sequence>, lo: Sequence, c: Sequence)
    requires Ascending(late) && early <= late && c in early
    ensures Between(late, lo, Some(c)) == Between(early, lo, Some(c))
  {
    var more := late[|early|..];
    assert late == early + more && forall n, m | n in early && m in more :: n < m;
    BetweenConcat(early, more, lo, Some(c));
    BetweenNothing(more, lo, Some(c));
  }

  /** One page more: it comes before the data seen so far. */
  lemma HistoryOneMore(first: seq<Sequence>, all: seq<Sequence>, cleared: Option<Sequence>, before: Sequence, limit: nat, data: seq<Sequence>)
    requires Ascending(first) && Ascending(all) && first <= all && before in first && limit >= 1
    requires Between(first, cleared.GetOr(0), None) == Between(first, cleared.GetOr(0), Some(before)) + data
    ensures var lo, page := cleared.GetOr(0), HistoryPage(all, cleared, Some(before), limit);
            && Between(first, lo, None) == Left(first, lo, page.nextCursor) + (page.data + data)
            && (page.nextCursor.Some? ==> page.nextCursor.value in first && |page.data| >= 1)
  {
    var lo, page := cleared.GetOr(0), HistoryPage(all, cleared, Some(before), limit);
    LaterListSameBelow(first, all, lo, before);
    HistoryPageSplits(all, cleared, Some(before), limit);
    if page.nextCursor.Some? {
      LaterListSameBelow(first, all, lo, page.nextCursor.value);
    }
    Associative(Left(first, lo, page.nextCursor), page.data, data);
  }

  /** The pages so far and what lies before their cursor make up the list that paging began with. */
  ghost predicate SeenBack(first: seq<Sequence>, pages: seq<Page>, cleared: Option<Sequence>, k: nat)
    requires k <= |pages|
  {
    var cursor, lo := CursorBefore(pages, k), cleared.GetOr(0);
    && Between(first, lo, None) == Left(first, lo, cursor) + HistoryData(pages, k)
    && (cursor.Some? ==> cursor.value in first && |HistoryData(pages, k)| >= k)
  }

  lemma SeenBackAtFirst(first: seq<Sequence>, pages: seq<Page>, cleared: Option<Sequence>, limit: nat)
    requires limit >= 1 && Ascending(first) && |pages| >= 1 && HistoryRequest(first, pages, cleared, limit, 0)
    ensures SeenBack(first, pages, cleared, 1)
  {
    HistoryPageSplits(first, cleared, None, limit);
    assert HistoryData(pages, 1) == pages[0].data + HistoryData(pages, 0) == pages[0].data;
  }

  lemma SeenBackAtNext(first: seq<Sequence>, all: seq<Sequence>, pages: seq<Page>, cleared: Option<Sequence>, limit: nat, k: nat)
    requires limit >= 1 && 2 <= k <= |pages| && Ascending(first) && Ascending(all) && first <= all
    requires SeenBack(first, pages, cleared, k - 1) && HistoryRequest(all, pages, cleared, limit, k - 1)
    ensures SeenBack(first, pages, cleared, k)
  {
    HistoryOneMore(first, all, cleared, CursorBefore(pages, k - 1).value, limit, HistoryData(pages, k - 1));
  }

  lemma {:induction false} HistoryProgress(lists: seq<seq<Sequence>>, pages: seq<Page>, cleared: Option<Sequence>, limit: nat, k: nat)
    requires limit >= 1 && HistoryTraversal(lists, pages, cleared, limit) && 1 <= k <= |pages|
    ensures SeenBack(lists[0], pages, cleared, k)
  {
    if k == 1 {
      FirstSeenBack(lists, pages, cleared, limit);
    } else {
      HistoryProgress(lists, pages, cleared, limit, k - 1);
      NextSeenBack(lists, pages, cleared, limit, k);
    }
  }

  lemma FirstSeenBack(lists: seq<seq<Sequence>>, pages: seq<Page>, cleared: Option<Sequence>, limit: nat)
    requires limit >= 1 && HistoryTraversal(lists, pages, cleared, limit) && pages != []
    ensures SeenBack(lists[0], pages, cleared, 1)
  {
    assert HistoryRequest(lists[0], pages, cleared, limit, 0);
    assert Extends(lists, 0, 0);
    SeenBackAtFirst(lists[0], pages, cleared, limit);
  }

  lemma NextSeenBack(lists: seq<seq<Sequence>>, pages: seq<Page>, cleared: Option<Sequence>, limit: nat, k: nat)
    requires limit >= 1 && HistoryTraversal(lists, pages, cleared, limit) && 2 <= k <= |pages|
    requires SeenBack(lists[0], pages, cleared, k - 1)
    ensures SeenBack(lists[0], pages, cleared, k)
  {
    assert HistoryRequest(lists[k - 1], pages, cleared, limit, k - 1);
    assert Extends(lists, 0, k - 1);
    SeenBackAtNext(lists[0], lists[k - 1], pages, cleared, limit, k);
  }

  /**
    Following the cursors back to the end visits every visible message of the list that it
    began with exactly once and in order, although messages were added meanwhile.
   */
  lemma HistoryVisitsAll(lists: seq<seq<Sequence>>, pages: seq<Page>, cleared: Option<Sequence>, limit: nat)
    requires limit >= 1 && HistoryTraversal(lists, pages, cleared, limit) && pages != []
    requires pages[|pages| - 1].nextCursor.None?
    ensures HistoryData(pages, |pages|) == Between(lists[0], cleared.GetOr(0), None)
  {
    HistoryProgress(lists, pages, cleared, limit, |pages|);
    assert Left(lists[0], cleared.GetOr(0), None) == [];
  }

  /** It comes to the end within one page more than there are messages. */
  lemma HistoryEnds(lists: seq<seq<Sequence>>, pages: seq<Page>, cleared: Option<Sequence>, limit: nat)
    requires limit >= 1 && HistoryTraversal(lists, pages, cleared, limit) && pages != []
    ensures |pages| <= |Between(lists[0], cleared.GetOr(0), None)| + 1
  {
    var n := |pages| - 1;
    if n > 0 {
      HistoryProgress(lists, pages, cleared, limit, n);
      assert HistoryRequest(lists[n], pages, cleared, limit, n);
      assert |Between(lists[0], cleared.GetOr(0), None)| >= |HistoryData(pages, n)|;
    }
  }

  // ----- Catch-up --------------------------------------------------------------------------------------

  function From(cleared: Option<Sequence>, after: Sequence): Sequence {
    if cleared.Some? && cleared.value > after then cleared.value else after
  }

  /** The page after `after`: the first of what lies there and above the cleared mark, at most `limit`. */
  function CatchUpPage(all: seq<Sequence>, cleared: Option<Sequence>, after: Sequence, limit: nat): Page
    requires limit >= 1
  {
    var e := Between(all, From(cleared, after), None);
    if |e| <= limit then Page(e, false, Some(if e == [] then after else e[|e| - 1]))
    else Page(e[..limit], true, Some(e[limit - 1]))
  }

  lemma FirstSplit(all: seq<Sequence>, lo: Sequence, m: nat)
    requires Ascending(all) && 1 <= m <= |Between(all, lo, None)|
    ensures var e := Between(all, lo, None);
            && e == e[..m] + Between(all, e[m - 1], None)
            && (m < |e| <==> Between(all, e[m - 1], None) != [])
            && lo < e[m - 1] && e[m - 1] in all
  {
    var e := Between(all, lo, None);
    Divides(all, lo, None, m - 1);
    assert e[m - 1] in e;
  }

  /** The page is the beginning of what lies after the cursor, and its own cursor divides it from what is left. */
  lemma CatchUpPageSplits(all: seq<Sequence>, cleared: Option<Sequence>, after: Sequence, limit: nat)
    requires Ascending(all) && limit >= 1
    ensures var page := CatchUpPage(all, cleared, after, limit);
            page.nextCursor.Some? && SplitsAt(all, From(cleared, after), From(cleared, page.nextCursor.value), page, limit)
  {
    var e := Between(all, From(cleared, after), None);
    if 0 < |e| <= limit {
      FirstSplit(all, From(cleared, after), |e|);
      assert e[..|e|] == e;
    } else if |e| > limit {
      FirstSplit(all, From(cleared, after), limit);
    }
  }

  ghost predicate SplitsAt(all: seq<Sequence>, lo: Sequence, next: Sequence, page: Page, limit: nat) {
    && Between(all, lo, None) == page.data + Between(all, next, None)
    && (page.hasMore <==> Between(all, next, None) != [])
    && (page.hasMore ==> |page.data| == limit)
    && lo <= next && (next == lo || next in all)
  }

  function CursorAfter(pages: seq<Page>, after: Sequence, k: nat): Sequence
    requires k <= |pages|
  {
    if k == 0 then after else pages[k - 1].nextCursor.GetOr(after)
  }

  ghost predicate CatchUpRequest(all: seq<Sequence>, pages: seq<Page>, cleared: Option<Sequence>, after: Sequence, limit: nat, k: nat)
    requires limit >= 1 && k < |pages|
  {
    pages[k] == CatchUpPage(all, cleared, CursorAfter(pages, after, k), limit)
  }

  ghost predicate CatchUpTraversal(lists: seq<seq<Sequence>>, pages: seq<Page>, cleared: Option<Sequence>, after: Sequence, limit: nat)
    requires limit >= 1
  {
    && |lists| == |pages| && Grows(lists)
    && forall k | 0 <= k < |pages| :: CatchUpRequest(lists[k], pages, cleared, after, limit, k)
  }

  /** The data of the first `k` pages, in the order in which they came. */
  function CatchUpData(pages: seq<Page>, k: nat): seq<Sequence>
    requires k <= |pages|
  {
    if k == 0 then [] else CatchUpData(pages, k - 1) + pages[k - 1].data
  }

  /** Of a longer list, what was seen before it grew is still the beginning of what lies after the start. */
  lemma LaterListSameSeen(early: seq<Sequence>, late: seq<Sequence>, lo: Sequence, next: Sequence, seen: seq<Sequence>)
    requires Ascending(late) && early <= late && lo <= next && (next == lo || next in early)
    requires Between(early, lo, None) == seen + Between(early, next, None)
    ensures Between(late, lo, None) == seen + Between(late, next, None)
  {
    var more := late[|early|..];
    assert late == early + more && forall n, m | n in early && m in more :: n < m;
    BetweenConcat(early, more, lo, None);
    BetweenConcat(early, more, next, None);
    BetweenAgree(more, lo, None, next, None);
    Associative(seen, Between(early, next, None), Between(more, next, None));
  }

  /** What was seen, and a cursor that divides it from the rest of what lies after the start. */
  ghost predicate Divided(all: seq<Sequence>, lo: Sequence, next: Sequence, seen: seq<Sequence>) {
    Between(all, lo, None) == seen + Between(all, next, None) && lo <= next && (next == lo || next in all)
  }

  lemma CatchUpOneMore(early: seq<Sequence>, all: seq<Sequence>, cleared: Option<Sequence>, lo: Sequence, cursor: Sequence, limit: nat, seen: seq<Sequence>)
    requires Ascending(early) && Ascending(all) && early <= all && limit >= 1
    requires Divided(early, lo, From(cleared, cursor), seen)
    ensures var page := CatchUpPage(all, cleared, cursor, limit);
            && page.nextCursor.Some?
            && Divided(all, lo, From(cleared, page.nextCursor.value), seen + page.data)
            && (page.hasMore <==> Between(all, From(cleared, page.nextCursor.value), None) != [])
  {
    var page := CatchUpPage(all, cleared, cursor, limit);
    LaterListSameSeen(early, all, lo, From(cleared, cursor), seen);
    CatchUpPageSplits(all, cleared, cursor, limit);
    var rest := Between(all, From(cleared, page.nextCursor.value), None);
    Associative(seen, page.data, rest);
  }

  lemma CatchUpFirst(all: seq<Sequence>, cleared: Option<Sequence>, after: Sequence, limit: nat)
    requires Ascending(all) && limit >= 1
    ensures var page := CatchUpPage(all, cleared, after, limit);
            && page.nextCursor.Some?
            && Divided(all, From(cleared, after), From(cleared, page.nextCursor.value), page.data)
            && (page.hasMore <==> Between(all, From(cleared, page.nextCursor.value), None) != [])
  {
    CatchUpPageSplits(all, cleared, after, limit);
  }

  lemma DataOfOneMore(pages: seq<Page>, k: nat)
    requires 1 <= k <= |pages|
    ensures CatchUpData(pages, k) == CatchUpData(pages, k - 1) + pages[k - 1].data
    ensures k == 1 ==> CatchUpData(pages, k) == pages[0].data
  {
  }

  lemma CaughtUpAtFirst(all: seq<Sequence>, pages: seq<Page>, cleared: Option<Sequence>, after: Sequence, limit: nat)
    requires limit >= 1 && Ascending(all) && |pages| >= 1 && CatchUpRequest(all, pages, cleared, after, limit, 0)
    ensures CaughtUp(all, pages, cleared, after, 1)
  {
    DataOfOneMore(pages, 1);
    CatchUpFirst(all, cleared, after, limit);
  }

  lemma CaughtUpAtNext(early: seq<Sequence>, all: seq<Sequence>, pages: seq<Page>, cleared: Option<Sequence>, after: Sequence, limit: nat, k: nat)
    requires limit >= 1 && 2 <= k <= |pages| && Ascending(early) && Ascending(all) && early <= all
    requires CaughtUp(early, pages, cleared, after, k - 1) && CatchUpRequest(all, pages, cleared, after, limit, k - 1)
    ensures CaughtUp(all, pages, cleared, after, k)
  {
    DataOfOneMore(pages, k);
    CatchUpOneMore(early, all, cleared, From(cleared, after), CursorAfter(pages, after, k - 1), limit, CatchUpData(pages, k - 1));
  }

  /** After `k` pages, those and what lies after their cursor make up what lies after the start, as the list then was. */
  lemma {:induction false} CatchUpProgress(
      lists: seq<seq<Sequence>>, pages: seq<Page>, cleared: Option<Sequence>, after: Sequence, limit: nat, k: nat)
    requires limit >= 1 && CatchUpTraversal(lists, pages, cleared, after, limit) && 1 <= k <= |pages|
    ensures CaughtUp(lists[k - 1], pages, cleared, after, k)
  {
    if k == 1 {
      FirstCaughtUp(lists, pages, cleared, after, limit);
    } else {
      CatchUpProgress(lists, pages, cleared, after, limit, k - 1);
      NextCaughtUp(lists, pages, cleared, after, limit, k);
    }
  }

  lemma FirstCaughtUp(lists: seq<seq<Sequence>>, pages: seq<Page>, cleared: Option<Sequence>, after: Sequence, limit: nat)
    requires limit >= 1 && CatchUpTraversal(lists, pages, cleared, after, limit) && pages != []
    ensures CaughtUp(lists[0], pages, cleared, after, 1)
  {
    assert CatchUpRequest(lists[0], pages, cleared, after, limit, 0);
    assert Extends(lists, 0, 0);
    CaughtUpAtFirst(lists[0], pages, cleared, after, limit);
  }

  lemma NextCaughtUp(lists: seq<seq<Sequence>>, pages: seq<Page>, cleared: Option<Sequence>, after: Sequence, limit: nat, k: nat)
    requires limit >= 1 && CatchUpTraversal(lists, pages, cleared, after, limit) && 2 <= k <= |pages|
    requires CaughtUp(lists[k - 2], pages, cleared, after, k - 1)
    ensures CaughtUp(lists[k - 1], pages, cleared, after, k)
  {
    assert CatchUpRequest(lists[k - 1], pages, cleared, after, limit, k - 1);
    assert Extends(lists, k - 2, k - 1);
    CaughtUpAtNext(lists[k - 2], lists[k - 1], pages, cleared, after, limit, k);
  }

  ghost predicate CaughtUp(all: seq<Sequence>, pages: seq<Page>, cleared: Option<Sequence>, after: Sequence, k: nat)
    requires 1 <= k <= |pages|
  {
    var next := From(cleared, CursorAfter(pages, after, k));
    && Divided(all, From(cleared, after), next, CatchUpData(pages, k))
    && (pages[k - 1].hasMore <==> Between(all, next, None) != [])
  }

  /**
    When a page says that there is no more, the pages so far have every message after the start
    and above the cleared mark that was there at the last request, exactly once and in order.
   */
  lemma CatchUpVisitsAll(lists: seq<seq<Sequence>>, pages: seq<Page>, cleared: Option<Sequence>, after: Sequence, limit: nat)
    requires limit >= 1 && CatchUpTraversal(lists, pages, cleared, after, limit) && pages != []
    ensures !pages[|pages| - 1].hasMore <==>
            CatchUpData(pages, |pages|) == Between(lists[|pages| - 1], From(cleared, after), None)
  {
    CatchUpProgress(lists, pages, cleared, after, limit, |pages|);
    var rest := Between(lists[|pages| - 1], From(cleared, CursorAfter(pages, after, |pages|)), None);
    assert |CatchUpData(pages, |pages|) + rest| == |CatchUpData(pages, |pages|)| + |rest|;
  }

  lemma {:induction false} FullPagesAdd(
      lists: seq<seq<Sequence>>, pages: seq<Page>, cleared: Option<Sequence>, after: Sequence, limit: nat, k: nat)
    requires limit >= 1 && CatchUpTraversal(lists, pages, cleared, after, limit) && k <= |pages|
    requires forall i | 0 <= i < k :: pages[i].hasMore
    ensures |CatchUpData(pages, k)| >= k
  {
    if k > 0 {
      FullPagesAdd(lists, pages, cleared, after, limit, k - 1);
      assert Extends(lists, k - 1, k - 1) && pages[k - 1].hasMore;
      assert CatchUpRequest(lists[k - 1], pages, cleared, after, limit, k - 1);
      CatchUpPageSplits(lists[k - 1], cleared, CursorAfter(pages, after, k - 1), limit);
    }
  }

  /** It comes to that page after fewer pages than there are messages, counted at the last request. */
  lemma CatchUpEnds(lists: seq<seq<Sequence>>, pages: seq<Page>, cleared: Option<Sequence>, after: Sequence, limit: nat)
    requires limit >= 1 && CatchUpTraversal(lists, pages, cleared, after, limit) && pages != []
    requires forall i | 0 <= i < |pages| :: pages[i].hasMore
    ensures |pages| < |Between(lists[|pages| - 1], From(cleared, after), None)|
  {
    CatchUpProgress(lists, pages, cleared, after, limit, |pages|);
    FullPagesAdd(lists, pages, cleared, after, limit, |pages|);
    assert pages[|pages| - 1].hasMore;
  }

  // ----- What a single page holds -----------------------------------------------------------------------

  lemma PrependAscending(first: Sequence, s: seq<Sequence>)
    requires Ascending(s) && forall n | n in s :: first < n
    ensures Ascending([first] + s)
  {
    var r := [first] + s;
    forall i, j | 0 <= i < j < |r| ensures r[i] < r[j] {
      assert r[j] == s[j - 1] && s[j - 1] in s;
    }
  }

  /** Above an element of an ascending list is what comes after it, below it what comes before it. */
  lemma Cut(e: seq<Sequence>, k: nat, n: Sequence)
    requires Ascending(e) && k < |e| && n in e
    ensures n in e[k..] <==> n >= e[k]
    ensures n in e[..k + 1] <==> n <= e[k]
    ensures e[k] in e[k..] && e[k] in e[..k + 1]
  {
    var i :| 0 <= i < |e| && e[i] == n;
    assert e[k..][0] == e[k] && e[..k + 1][k] == e[k];
    if i >= k {
      assert e[k..][i - k] == n;
    }
    if i <= k {
      assert e[..k + 1][i] == n;
    }
  }

  lemma NewestOf(e: seq<Sequence>, limit: nat)
    requires Ascending(e) && 1 <= limit < |e|
    ensures var data := e[|e| - limit..];
            && Ascending(data) && |data| == limit && e[0] !in data
            && (forall n | n in data :: n in e) && (forall n | n in e && n !in data :: n < data[0])
  {
    var k := |e| - limit;
    Cut(e, k, e[0]);
    forall n | n in e ensures n in e[k..] <==> n >= e[k] {
      Cut(e, k, n);
    }
  }

  lemma OldestOf(e: seq<Sequence>, limit: nat)
    requires Ascending(e) && 1 <= limit < |e|
    ensures var data := e[..limit];
            && Ascending(data) && |data| == limit && e[limit] !in data
            && (forall n | n in data :: n in e) && (forall n | n in e && n !in data :: n > data[limit - 1])
  {
    Cut(e, limit - 1, e[limit]);
    forall n | n in e ensures n in e[..limit] <==> n <= e[limit - 1] {
      Cut(e, limit - 1, n);
    }
  }

  lemma {:induction false} BetweenAscending(all: seq<Sequence>, lo: Sequence, hi: Option<Sequence>)
    requires Ascending(all)
    ensures Ascending(Between(all, lo, hi))
  {
    if all != [] {
      assert forall n | n in all[1..] :: all[0] < n;
      BetweenAscending(all[1..], lo, hi);
      PrependAscending(all[0], Between(all[1..], lo, hi));
    }
  }

  /** A message of the list above the cleared mark and below the cursor, if there are any; sequences start at one. */
  predicate Eligible(all: seq<Sequence>, cleared: Option<Sequence>, before: Option<Sequence>, n: Sequence) {
    n in all && n > 0 && (cleared.None? || n > cleared.value) && (before.None? || n < before.value)
  }

  /** The page has the newest eligible messages in order; it is full, and the rest below its cursor, exactly if there is more. */
  ghost predicate NewestEligible(all: seq<Sequence>, cleared: Option<Sequence>, before: Option<Sequence>, limit: nat, page: Page) {
    && Ascending(page.data) && |page.data| <= limit
    && (forall n | n in page.data :: Eligible(all, cleared, before, n))
    && (page.hasMore <==> exists n: Sequence :: Eligible(all, cleared, before, n) && n !in page.data)
    && (page.hasMore <==> page.nextCursor.Some?)
    && (page.hasMore ==> |page.data| == limit && page.data != [] && page.nextCursor == Some(page.data[0]))
    && (forall n: Sequence | Eligible(all, cleared, before, n) && n !in page.data && page.data != [] :: n < page.data[0])
  }

  /** The page has the oldest messages above start and mark; it is full, and the rest above its cursor, exactly if there is more. */
  ghost predicate OldestEligible(all: seq<Sequence>, cleared: Option<Sequence>, after: Sequence, limit: nat, page: Page) {
    && Ascending(page.data) && |page.data| <= limit
    && (forall n | n in page.data :: Eligible(all, cleared, None, n) && n > after)
    && (page.hasMore <==> exists n: Sequence :: Eligible(all, cleared, None, n) && n > after && n !in page.data)
    && (page.hasMore ==> |page.data| == limit && page.data != [])
    && page.nextCursor == Some(if page.data == [] then after else page.data[|page.data| - 1])
    && (forall n: Sequence | Eligible(all, cleared, None, n) && n > after && n !in page.data && page.data != [] :: n > page.data[|page.data| - 1])
  }

  lemma HistoryPageHolds(all: seq<Sequence>, cleared: Option<Sequence>, before: Option<Sequence>, limit: nat)
    requires Ascending(all) && limit >= 1
    ensures NewestEligible(all, cleared, before, limit, HistoryPage(all, cleared, before, limit))
  {
    var e, page := Between(all, cleared.GetOr(0), before), HistoryPage(all, cleared, before, limit);
    BetweenAscending(all, cleared.GetOr(0), before);
    assert forall n: Sequence :: n in e <==> Eligible(all, cleared, before, n);
    if |e| > limit {
      NewestOf(e, limit);
      assert e[0] in e;
    }
  }

  lemma CatchUpPageHolds(all: seq<Sequence>, cleared: Option<Sequence>, after: Sequence, limit: nat)
    requires Ascending(all) && limit >= 1
    ensures OldestEligible(all, cleared, after, limit, CatchUpPage(all, cleared, after, limit))
  {
    var e, page := Between(all, From(cleared, after), None), CatchUpPage(all, cleared, after, limit);
    BetweenAscending(all, From(cleared, after), None);
    assert forall n: Sequence :: n in e <==> Eligible(all, cleared, None, n) && n > after;
    if |e| > limit {
      OldestOf(e, limit);
      assert e[limit] in e;
    }
  }

  // ----- The queries -----------------------------------------------------------------------------------

  datatype Answer = Answered(page: Page) | BadLimit

  function Nth(found: seq<Sequence>, newestFirst: bool, i: nat): Sequence
    requires i < |found|
  {
    if newestFirst then found[|found| - 1 - i] else found[i]
  }

  /** The rows of a query, newest first or oldest first, at most `count` of them. */
  method Select(all: seq<Sequence>, lo: Sequence, hi: Option<Sequence>, newestFirst: bool, count: nat) returns (rows: seq<Sequence>)
    ensures var found := Between(all, lo, hi);
            && |rows| == (if |found| <= count then |found| else count)
            && forall i | 0 <= i < |rows| :: rows[i] == Nth(found, newestFirst, i)
  {
    var found := Between(all, lo, hi);
    rows := [];
    while |rows| < |found| && |rows| < count
      invariant |rows| <= |found| && |rows| <= count
      invariant forall i | 0 <= i < |rows| :: rows[i] == Nth(found, newestFirst, i)
    {
      rows := rows + [Nth(found, newestFirst, |rows|)];
    }
  }

  /** The first `count` rows, which are the newest, the other way round. */
  method Reversed(ghost found: seq<Sequence>, rows: seq<Sequence>, count: nat) returns (selected: seq<Sequence>)
    requires count <= |rows| <= |found| && forall i | 0 <= i < |rows| :: rows[i] == found[|found| - 1 - i]
    ensures selected == found[|found| - count..]
  {
    selected := [];
    for i := 0 to count
      invariant selected == found[|found| - i..]
    {
      selected := [rows[i]] + selected;
    }
  }

  /** One row more than asked for is selected, to tell whether there is more. */
  method GetHistory(all: seq<Sequence>, cleared: Option<Sequence>, before: Option<Sequence>, limit: int) returns (answer: Answer)
    ensures answer == if 1 <= limit <= LIMIT_MAX then Answered(HistoryPage(all, cleared, before, limit)) else BadLimit
    ensures answer.Answered? <==> 1 <= limit <= 100
    ensures answer.Answered? && Ascending(all) ==> NewestEligible(all, cleared, before, limit, answer.page)
  {
    if limit < 1 || limit > LIMIT_MAX {
      return BadLimit;
    }
    var rows := Select(all, cleared.GetOr(0), before, true, limit + 1);
    var hasMore := |rows| > limit;
    var selected := Reversed(Between(all, cleared.GetOr(0), before), rows, if hasMore then limit else |rows|);
    answer := Answered(Page(selected, hasMore, if hasMore && |selected| > 0 then Some(selected[0]) else None));
    if Ascending(all) {
      HistoryPageHolds(all, cleared, before, limit);
    }
  }

  method GetCatchUp(all: seq<Sequence>, cleared: Option<Sequence>, after: Sequence, limit: int) returns (answer: Answer)
    ensures answer == if 1 <= limit <= LIMIT_MAX then Answered(CatchUpPage(all, cleared, after, limit)) else BadLimit
    ensures answer.Answered? <==> 1 <= limit <= 100
    ensures answer.Answered? && Ascending(all) ==> OldestEligible(all, cleared, after, limit, answer.page)
  {
    if limit < 1 || limit > LIMIT_MAX {
      return BadLimit;
    }
    var start := if cleared.Some? && cleared.value > after then cleared.value else after;
    var rows := Select(all, start, None, false, limit + 1);
    var hasMore := |rows| > limit;
    var selected := if hasMore then rows[..limit] else rows;
    ghost var found := Between(all, start, None);
    assert forall i | 0 <= i < |selected| :: selected[i] == Nth(found, false, i);
    assert selected == if |found| <= limit then found else found[..limit];
    answer := Answered(Page(selected, hasMore, Some(if |selected| > 0 then selected[|selected| - 1] else after)));
    if Ascending(all) {
      CatchUpPageHolds(all, cleared, after, limit);
    }
  }
}
