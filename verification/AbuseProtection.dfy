/** The fixed-window quotas and the socket registry, beside a plain log of requests. */
module AbuseProtection {
  import opened Basics

  datatype Limit = Limit(max: nat, windowMs: nat)

  datatype Window = Window(startedAt: int, count: nat)

  datatype Route = Send | Search | Unread | List | History | Media | Typing

  datatype Key = AccountKey(route: Route, account: string) | IpKey(route: Route, ip: string)

  const IP_ACCOUNT_CAPACITY: nat := 256
  const PRUNE_AGE_MS: nat := 60_000
  const PRUNE_ABOVE: nat := 10_000

  function LimitOf(route: Route): (l: Limit)
    ensures l.max >= 1 && l.windowMs <= PRUNE_AGE_MS
  {
    match route
    case Send => Limit(30, 60_000)
    case Search => Limit(60, 60_000)
    case Unread => Limit(120, 60_000)
    case List => Limit(120, 60_000)
    case History => Limit(120, 60_000)
    case Media => Limit(60, 60_000)
    case Typing => Limit(10, 5_000)
  }

  function IpLimitOf(route: Route): Limit {
    Limit(LimitOf(route).max * IP_ACCOUNT_CAPACITY, LimitOf(route).windowMs)
  }

  // ----- One counter -----------------------------------------------------------------------

  predicate Expired(w: Option<Window>, limit: Limit, now: int) {
    w.None? || now - w.value.startedAt >= limit.windowMs
  }

  predicate Admits(w: Option<Window>, limit: Limit, now: int) {
    Expired(w, limit, now) || w.value.count < limit.max
  }

  function Taken(w: Option<Window>, limit: Limit, now: int): Option<Window> {
    if Expired(w, limit, now) then Some(Window(now, 1))
    else if w.value.count < limit.max then Some(w.value.(count := w.value.count + 1))
    else w
  }

  /** The counter after a run of requests, with the admitted times before and within its window. */
  datatype Trace = Trace(window: Option<Window>, before: seq<int>, current: seq<int>) {
    function Admitted(): seq<int> {
      before + current
    }
  }

  function Run(limit: Limit, times: seq<int>): Trace {
    if times == [] then Trace(None, [], [])
    else
      Step(Run(limit, times[..|times| - 1]), limit, times[|times| - 1])
  }

  function Step(t: Trace, limit: Limit, now: int): Trace {
    if Expired(t.window, limit, now) then Trace(Taken(t.window, limit, now), t.before + t.current, [now])
    else if Admits(t.window, limit, now) then Trace(Taken(t.window, limit, now), t.before, t.current + [now])
    else t
  }

  /** How many of the times lie in the interval from `lo`, up to and without `hi`. */
  function CountIn(times: seq<int>, lo: int, hi: int): (n: nat)
    ensures n <= |times|
  {
    if times == [] then 0
    else CountIn(times[..|times| - 1], lo, hi) + if lo <= times[|times| - 1] < hi then 1 else 0
  }

  lemma {:induction false} CountConcat(s: seq<int>, t: seq<int>, lo: int, hi: int)
    ensures CountIn(s + t, lo, hi) == CountIn(s, lo, hi) + CountIn(t, lo, hi)
  {
    if t == [] {
      assert s + t == s;
    } else {
      var n := |t| - 1;
      assert (s + t)[..|s| + n] == s + t[..n];
      CountConcat(s, t[..n], lo, hi);
    }
  }

  lemma {:induction false} CountOutside(times: seq<int>, lo: int, hi: int)
    requires forall t | t in times :: t < lo || hi <= t
    ensures CountIn(times, lo, hi) == 0
  {
    if times != [] {
      var front := times[..|times| - 1];
      assert times[|times| - 1] in times && forall t | t in front :: t in times;
      CountOutside(front, lo, hi);
    }
  }

  /** How many of the times lie in the `width` milliseconds from `lo` on. */
  function InWindow(times: seq<int>, lo: int, width: nat): nat {
    CountIn(times, lo, lo + width)
  }

  ghost predicate NonDecreasing(times: seq<int>) {
    forall i, j | 0 <= i < j < |times| :: times[i] <= times[j]
  }

  /** The most requests that one window admits: the first one of a window is always let through. */
  function PerWindow(limit: Limit): (m: nat)
    ensures m >= 1 && m >= limit.max
  {
    if limit.max == 0 then 1 else limit.max
  }

  /** What every run of the counter keeps. */
  ghost predicate WindowInvariant(t: Trace, limit: Limit, now: int) {
    if t.window.None? then t.before == [] && t.current == []
    else
      var start, m := t.window.value.startedAt, PerWindow(limit);
      && start <= now
      && 0 < |t.current| == t.window.value.count <= m
      && t.current[0] == start
      && (forall x | x in t.current :: start <= x)
      && (forall x | x in t.before :: x <= start)
      && (forall lo: int :: InWindow(t.before, lo, limit.windowMs) <= if lo > start - limit.windowMs then m - 1 else 2 * m - 1)
  }

  /** The window's own first request is outside every interval that starts after it. */
  lemma FirstLeftOut(current: seq<int>, lo: int, width: nat)
    requires current != [] && current[0] < lo
    ensures InWindow(current, lo, width) <= |current| - 1
  {
    assert current == [current[0]] + current[1..];
    CountConcat([current[0]], current[1..], lo, lo + width);
  }

  lemma AdmittedBound(t: Trace, limit: Limit, now: int, lo: int)
    requires WindowInvariant(t, limit, now)
    ensures InWindow(t.Admitted(), lo, limit.windowMs) <= 2 * PerWindow(limit) - 1
  {
    var w := limit.windowMs;
    CountConcat(t.before, t.current, lo, lo + w);
    assert t.window.Some? ==> InWindow(t.before, lo, w) <= 2 * PerWindow(limit) - 1;
    if t.window.Some? && lo + w <= t.window.value.startedAt {
      CountOutside(t.current, lo, lo + w);
    }
  }

  lemma NewWindowStep(t: Trace, limit: Limit, last: int, now: int)
    requires WindowInvariant(t, limit, last) && last <= now && Expired(t.window, limit, now)
    requires forall x | x in t.current :: x <= last
    ensures WindowInvariant(Trace(Some(Window(now, 1)), t.before + t.current, [now]), limit, now)
  {
    var before, w := t.before + t.current, limit.windowMs;
    forall lo: int
      ensures InWindow(before, lo, w) <= if lo > now - w then PerWindow(limit) - 1 else 2 * PerWindow(limit) - 1
    {
      AdmittedBound(t, limit, last, lo);
      if lo > now - w && t.window.Some? {
        CountConcat(t.before, t.current, lo, lo + w);
        CountOutside(t.before, lo, lo + w);
        FirstLeftOut(t.current, lo, w);
      }
    }
  }

  lemma {:induction false} RunInvariant(limit: Limit, times: seq<int>)
    requires NonDecreasing(times) && times != []
    ensures WindowInvariant(Run(limit, times), limit, times[|times| - 1])
    ensures forall x | x in Run(limit, times).current :: x <= times[|times| - 1]
  {
    var n := |times| - 1;
    var front, now := times[..n], times[n];
    var last := if n == 0 then now else front[n - 1];
    if n > 0 {
      RunInvariant(limit, front);
    }
    var t := Run(limit, front);
    if Expired(t.window, limit, now) {
      NewWindowStep(t, limit, last, now);
    }
  }

  /**
    Whatever requests are made, no interval as long as the window sees twice the quota: the
    first request of the earlier window cannot be in it.
   */
  lemma BelowTwiceTheQuota(limit: Limit, times: seq<int>, lo: int)
    requires NonDecreasing(times)
    ensures InWindow(Run(limit, times).Admitted(), lo, limit.windowMs) <= 2 * PerWindow(limit) - 1
  {
    if times != [] {
      RunInvariant(limit, times);
      AdmittedBound(Run(limit, times), limit, times[|times| - 1], lo);
    }
  }

  // ----- Which requests are admitted -----------------------------------------------------------

  /** The request that opened the window of request `i`: the first of all, or one that came a whole window after the last that did. */
  function Opener(windowMs: nat, times: seq<int>, i: nat): (o: nat)
    requires i < |times|
    ensures o <= i
  {
    if i == 0 then 0
    else
      var o := Opener(windowMs, times, i - 1);
      if times[i] - times[o] >= windowMs then i else o
  }

  lemma {:induction false} OpenerOfPrefix(windowMs: nat, times: seq<int>, n: nat, i: nat)
    requires i < n <= |times|
    ensures Opener(windowMs, times[..n], i) == Opener(windowMs, times, i)
  {
    if i > 0 {
      OpenerOfPrefix(windowMs, times, n, i - 1);
    }
  }

  /** The windows are a window apart and whatever lies between two openers is within the first one's. */
  lemma {:induction false} Openers(windowMs: nat, times: seq<int>, i: nat)
    requires i < |times|
    ensures var o := Opener(windowMs, times, i);
            && Opener(windowMs, times, o) == o
            && (forall k | o < k <= i :: times[k] - times[o] < windowMs && Opener(windowMs, times, k) == o)
            && (o > 0 ==> times[o] - times[Opener(windowMs, times, o - 1)] >= windowMs)
  {
    if i > 0 {
      Openers(windowMs, times, i - 1);
    }
  }

  lemma {:induction false} WindowAfter(limit: Limit, times: seq<int>)
    requires times != []
    ensures var i, o, w := |times| - 1, Opener(limit.windowMs, times, |times| - 1), Run(limit, times).window;
            && w.Some? && w.value.startedAt == times[o]
            && w.value.count == if i - o + 1 < PerWindow(limit) then i - o + 1 else PerWindow(limit)
  {
    var i := |times| - 1;
    if i > 0 {
      WindowAfter(limit, times[..i]);
      OpenerOfPrefix(limit.windowMs, times, i, i - 1);
    }
  }

  /** Each window admits its first requests up to the quota, at least one of them, and no other. */
  lemma AdmitsFirstOfWindow(limit: Limit, times: seq<int>, i: nat)
    requires i < |times|
    ensures Admits(Run(limit, times[..i]).window, limit, times[i]) <==> i - Opener(limit.windowMs, times, i) < PerWindow(limit)
  {
    if i > 0 {
      WindowAfter(limit, times[..i]);
      OpenerOfPrefix(limit.windowMs, times, i, i - 1);
    }
  }

  // ----- The bound is attained -------------------------------------------------------------

  function Repeat(x: int, n: nat): (s: seq<int>)
    ensures |s| == n && forall y | y in s :: y == x
  {
    if n == 0 then [] else Repeat(x, n - 1) + [x]
  }

  lemma {:induction false} RepeatCount(x: int, n: nat, lo: int, hi: int)
    requires lo <= x < hi
    ensures CountIn(Repeat(x, n), lo, hi) == n
  {
    if n > 0 {
      RepeatCount(x, n - 1, lo, hi);
      assert (Repeat(x, n - 1) + [x])[..n - 1] == Repeat(x, n - 1);
    }
  }

  /** One request opens a window, the rest of its quota comes in its last millisecond, and then a new quota. */
  function Burst(limit: Limit, later: nat): seq<int>
    requires limit.max >= 1
  {
    FirstQuota(limit) + Repeat(limit.windowMs, later)
  }

  function FirstQuota(limit: Limit): seq<int>
    requires limit.max >= 1
  {
    [0] + Repeat(limit.windowMs - 1, limit.max - 1)
  }

  lemma RunOneMore(limit: Limit, times: seq<int>, now: int)
    ensures Run(limit, times + [now]) == Step(Run(limit, times), limit, now)
  {
    assert (times + [now])[..|times|] == times;
  }

  /** A request that finds its window open and not full. */
  lemma CountedIn(t: Trace, limit: Limit, now: int)
    requires t.window.Some? && !Expired(t.window, limit, now) && t.window.value.count < limit.max
    ensures Step(t, limit, now) == Trace(Some(Window(t.window.value.startedAt, t.window.value.count + 1)), t.before, t.current + [now])
  {
  }

  /** After `n` requests at the times `r` a window that was open has counted them all. */
  ghost predicate Filled(limit: Limit, s: seq<int>, r: seq<int>, t: Trace, n: nat) {
    && t.window.Some?
    && Run(limit, s + r) == Trace(Some(Window(t.window.value.startedAt, t.window.value.count + n)), t.before, t.current + r)
  }

  lemma FillsOneMore(limit: Limit, s: seq<int>, r: seq<int>, x: int, t: Trace, n: nat)
    requires Filled(limit, s, r, t, n) && !Expired(t.window, limit, x) && t.window.value.count + n < limit.max
    ensures Filled(limit, s, r + [x], t, n + 1)
  {
    assert s + (r + [x]) == (s + r) + [x];
    assert t.current + (r + [x]) == (t.current + r) + [x];
    RunOneMore(limit, s + r, x);
    CountedIn(Run(limit, s + r), limit, x);
  }

  lemma NoneMore(limit: Limit, s: seq<int>, t: Trace)
    requires Run(limit, s) == t && t.window.Some?
    ensures Filled(limit, s, [], t, 0)
  {
    assert s + [] == s && t.current + [] == t.current;
  }

  /** Equal requests fill a window that is open and has room for them. */
  lemma {:induction false} Fills(limit: Limit, s: seq<int>, x: int, n: nat, t: Trace)
    requires Run(limit, s) == t && t.window.Some?
    requires !Expired(t.window, limit, x) && t.window.value.count + n <= limit.max
    ensures Filled(limit, s, Repeat(x, n), t, n)
  {
    if n == 0 {
      NoneMore(limit, s, t);
    } else {
      Fills(limit, s, x, n - 1, t);
      FillsOneMore(limit, s, Repeat(x, n - 1), x, t, n - 1);
    }
  }

  lemma FirstRequest(limit: Limit)
    ensures Run(limit, [0]) == Trace(Some(Window(0, 1)), [], [0])
  {
    RunOneMore(limit, [], 0);
    assert [] + [0] == [0];
  }

  lemma FirstWindow(limit: Limit, n: nat)
    requires limit.windowMs >= 2 && n < limit.max
    ensures Run(limit, [0] + Repeat(limit.windowMs - 1, n))
         == Trace(Some(Window(0, n + 1)), [], [0] + Repeat(limit.windowMs - 1, n))
  {
    FirstRequest(limit);
    Fills(limit, [0], limit.windowMs - 1, n, Trace(Some(Window(0, 1)), [], [0]));
  }

  /** A request at the end of a full window that began at zero opens the next one. */
  lemma OpensNext(limit: Limit, s: seq<int>)
    requires Run(limit, s) == Trace(Some(Window(0, limit.max)), [], s)
    ensures Run(limit, s + [limit.windowMs]) == Trace(Some(Window(limit.windowMs, 1)), s, [limit.windowMs])
  {
    RunOneMore(limit, s, limit.windowMs);
    assert [] + s == s;
  }

  lemma Regroup(s: seq<int>, x: int, n: nat)
    requires n > 0
    ensures (s + [x]) + Repeat(x, n - 1) == s + Repeat(x, n) && [x] + Repeat(x, n - 1) == Repeat(x, n)
  {
    RepeatFirst(x, n);
  }

  lemma SecondWindow(limit: Limit, s: seq<int>, later: nat)
    requires limit.windowMs >= 1 && 1 <= later <= limit.max
    requires Run(limit, s) == Trace(Some(Window(0, limit.max)), [], s)
    ensures Run(limit, s + Repeat(limit.windowMs, later))
         == Trace(Some(Window(limit.windowMs, later)), s, Repeat(limit.windowMs, later))
  {
    var w := limit.windowMs;
    OpensNext(limit, s);
    Fills(limit, s + [w], w, later - 1, Trace(Some(Window(w, 1)), s, [w]));
    Regroup(s, w, later);
  }

  lemma RepeatFirst(x: int, n: nat)
    requires n > 0
    ensures Repeat(x, n) == [x] + Repeat(x, n - 1)
  {
    var s, t := Repeat(x, n), [x] + Repeat(x, n - 1);
    assert forall k | 0 <= k < n :: s[k] in s && t[k] in t;
  }

  lemma QuotaCount(w: nat, n: nat)
    requires w >= 2
    ensures InWindow([0] + Repeat(w - 1, n), w - 1, w) == n
  {
    CountConcat([0], Repeat(w - 1, n), w - 1, w - 1 + w);
    CountOutside([0], w - 1, w - 1 + w);
    RepeatCount(w - 1, n, w - 1, w - 1 + w);
  }

  lemma BothWindows(limit: Limit)
    requires limit.windowMs >= 2 && limit.max >= 1
    ensures Run(limit, Burst(limit, limit.max))
         == Trace(Some(Window(limit.windowMs, limit.max)), FirstQuota(limit), Repeat(limit.windowMs, limit.max))
  {
    FirstWindow(limit, limit.max - 1);
    SecondWindow(limit, FirstQuota(limit), limit.max);
  }

  lemma BurstCount(limit: Limit)
    requires limit.windowMs >= 2 && limit.max >= 1
    ensures InWindow(FirstQuota(limit) + Repeat(limit.windowMs, limit.max), limit.windowMs - 1, limit.windowMs) == 2 * limit.max - 1
  {
    var w, m := limit.windowMs, limit.max;
    CountConcat(FirstQuota(limit), Repeat(w, m), w - 1, w - 1 + w);
    QuotaCount(w, m - 1);
    RepeatCount(w, m, w - 1, w - 1 + w);
  }

  lemma BurstAttainsTheBound(limit: Limit)
    requires limit.windowMs >= 2 && limit.max >= 1
    ensures var t := Run(limit, Burst(limit, limit.max));
            InWindow(t.Admitted(), limit.windowMs - 1, limit.windowMs) == 2 * limit.max - 1
  {
    BothWindows(limit);
    BurstCount(limit);
  }

  // ----- All counters ------------------------------------------------------------------------

  function LimitFor(key: Key): (l: Limit)
    ensures l.max >= 1 && l.windowMs <= PRUNE_AGE_MS
  {
    match key
    case AccountKey(route, _) => LimitOf(route)
    case IpKey(route, _) => IpLimitOf(route)
  }

  /** The times at which each counter was asked for, since the process began. */
  type Requests = map<Key, seq<int>>

  function TimesOf(requests: Requests, key: Key): seq<int> {
    if key in requests then requests[key] else []
  }

  /** The counter that would be there if nothing were ever pruned. */
  function NeverPruned(requests: Requests, key: Key): Option<Window> {
    Run(LimitFor(key), TimesOf(requests, key)).window
  }

  function CounterOf(counters: map<Key, Window>, key: Key): Option<Window> {
    if key in counters then Some(counters[key]) else None
  }

  predicate Allowed(requests: Requests, key: Key, now: int) {
    Admits(NeverPruned(requests, key), LimitFor(key), now)
  }

  function Asked(requests: Requests, key: Key, now: int): Requests {
    requests[key := TimesOf(requests, key) + [now]]
  }

  /** A counter is as it would be without pruning, or it is missing and would be too old to matter. */
  ghost predicate Faithful(counters: map<Key, Window>, requests: Requests, clock: int) {
    forall key ::
      CounterOf(counters, key) == NeverPruned(requests, key)
      || (CounterOf(counters, key).None? && Expired(NeverPruned(requests, key), LimitFor(key), clock))
  }

  ghost predicate InTimeOrder(requests: Requests, clock: int) {
    forall key :: NonDecreasing(TimesOf(requests, key)) && forall t | t in TimesOf(requests, key) :: t <= clock
  }

  lemma AskedOnce(requests: Requests, key: Key, now: int)
    ensures NeverPruned(Asked(requests, key, now), key) == Taken(NeverPruned(requests, key), LimitFor(key), now)
  {
    var times := TimesOf(requests, key);
    assert (times + [now])[..|times|] == times;
  }

  /** A counter that was pruned decides as the one that never is. */
  lemma PrunedDecidesAlike(counter: Option<Window>, kept: Option<Window>, limit: Limit, clock: int, now: int)
    requires counter == kept || (counter.None? && Expired(kept, limit, clock))
    requires clock <= now
    ensures Admits(counter, limit, now) == Admits(kept, limit, now)
    ensures Taken(counter, limit, now) == Taken(kept, limit, now)
  {
  }

  lemma OthersNotAsked(requests: Requests, key: Key, now: int, other: Key)
    requires other != key
    ensures NeverPruned(Asked(requests, key, now), other) == NeverPruned(requests, other)
  {
  }

  lemma TakenKeepsFaithful(counters: map<Key, Window>, requests: Requests, key: Key, clock: int, now: int)
    requires Faithful(counters, requests, clock) && clock <= now
    ensures Admits(CounterOf(counters, key), LimitFor(key), now) == Allowed(requests, key, now)
    ensures Faithful(counters[key := Taken(CounterOf(counters, key), LimitFor(key), now).value], Asked(requests, key, now), now)
  {
    var after, asked := counters[key := Taken(CounterOf(counters, key), LimitFor(key), now).value], Asked(requests, key, now);
    AskedOnce(requests, key, now);
    PrunedDecidesAlike(CounterOf(counters, key), NeverPruned(requests, key), LimitFor(key), clock, now);
    forall k
      ensures CounterOf(after, k) == NeverPruned(asked, k)
           || (CounterOf(after, k).None? && Expired(NeverPruned(asked, k), LimitFor(k), now))
    {
      if k != key {
        OthersNotAsked(requests, key, now, k);
        assert CounterOf(after, k) == CounterOf(counters, k);
      }
    }
  }

  lemma AskedInOrder(requests: Requests, key: Key, clock: int, now: int)
    requires InTimeOrder(requests, clock) && clock <= now
    ensures InTimeOrder(Asked(requests, key, now), now)
  {
    var after := Asked(requests, key, now);
    forall k ensures NonDecreasing(TimesOf(after, k)) && forall t | t in TimesOf(after, k) :: t <= now {
      var times := TimesOf(requests, k);
      assert NonDecreasing(times) && forall i | 0 <= i < |times| :: times[i] in times;
      assert TimesOf(after, k) == if k == key then TimesOf(requests, k) + [now] else TimesOf(requests, k);
    }
  }

  datatype Verdict = Served | RateLimited

  /** The two quotas a request draws on, the account's first. */
  function Decision(requests: Requests, byAccount: Key, byIp: Key, now: int): (Verdict, Requests) {
    var once := Asked(requests, byAccount, now);
    if !Allowed(requests, byAccount, now) then (RateLimited, once)
    else (if Allowed(once, byIp, now) then Served else RateLimited, Asked(once, byIp, now))
  }

  /** Served exactly if both counters admit it; the account's is asked for every request, the address's if that one admits it. */
  ghost predicate DecidedAs(requests: Requests, byAccount: Key, byIp: Key, now: int, verdict: Verdict, after: Requests) {
    && (verdict.Served? <==> Allowed(requests, byAccount, now) && Allowed(requests, byIp, now))
    && forall key :: TimesOf(after, key) == TimesOf(requests, key)
         + if key == byAccount || (key == byIp && Allowed(requests, byAccount, now)) then [now] else []
  }

  lemma DecisionExactly(requests: Requests, byAccount: Key, byIp: Key, now: int)
    requires byAccount != byIp
    ensures DecidedAs(requests, byAccount, byIp, now, Decision(requests, byAccount, byIp, now).0, Decision(requests, byAccount, byIp, now).1)
  {
    OthersNotAsked(requests, byAccount, now, byIp);
    forall key
      ensures TimesOf(Decision(requests, byAccount, byIp, now).1, key) == TimesOf(requests, key)
           + if key == byAccount || (key == byIp && Allowed(requests, byAccount, now)) then [now] else []
    {
      assert TimesOf(requests, key) + [] == TimesOf(requests, key);
    }
  }

  /** The quotas of an account, by route; an address has room for two hundred and fifty-six accounts. */
  lemma QuotaTable(account: string, ip: string, route: Route)
    ensures LimitFor(AccountKey(Send, account)) == Limit(30, 60_000) && LimitFor(AccountKey(Typing, account)) == Limit(10, 5_000)
    ensures route in {Unread, List, History} ==> LimitFor(AccountKey(route, account)) == Limit(120, 60_000)
    ensures route in {Search, Media} ==> LimitFor(AccountKey(route, account)) == Limit(60, 60_000)
    ensures LimitFor(IpKey(route, ip)).max == 256 * LimitFor(AccountKey(route, account)).max
    ensures LimitFor(IpKey(route, ip)).windowMs == LimitFor(AccountKey(route, account)).windowMs
    ensures AddressOf(None) == AddressOf(Some("")) == "unknown" && (ip != "" ==> AddressOf(Some(ip)) == ip)
  {
  }

  class HttpQuotas {
    var counters: map<Key, Window>

    ghost var requests: Requests
    ghost var clock: int

    ghost predicate Valid()
      reads this
    {
      Faithful(counters, requests, clock) && InTimeOrder(requests, clock)
    }

    constructor ()
      ensures Valid() && requests == map[]
    {
      counters, requests, clock := map[], map[], 0;
    }

    method Take(key: Key, now: int) returns (ok: bool)
      requires Valid() && clock <= now
      modifies this
      ensures Valid() && clock == now
      ensures ok == Allowed(old(requests), key, now)
      ensures requests == Asked(old(requests), key, now)
    {
      var limit := LimitFor(key);
      ghost var before := counters;
      TakenKeepsFaithful(counters, requests, key, clock, now);
      if key !in counters || now - counters[key].startedAt >= limit.windowMs {
        counters := counters[key := Window(now, 1)];
        ok := true;
      } else if counters[key].count >= limit.max {
        ok := false;
        assert counters == counters[key := counters[key]];
      } else {
        counters := counters[key := counters[key].(count := counters[key].count + 1)];
        ok := true;
      }
      AskedInOrder(requests, key, clock, now);
      requests := Asked(requests, key, now);
      clock := now;
      assert counters == before[key := Taken(CounterOf(before, key), limit, now).value];
    }

    method Prune(now: int)
      requires Valid() && clock == now
      modifies this`counters
      ensures Valid()
      ensures forall k :: k in counters <==> k in old(counters) && now - old(counters)[k].startedAt < 60_000
      ensures forall k | k in counters :: counters[k] == old(counters)[k]
    {
      var todo := counters.Keys;
      while todo != {}
        invariant todo <= counters.Keys <= old(counters).Keys
        invariant Faithful(counters, requests, clock)
        invariant forall k | k in old(counters) ::
                    k in counters <==> k in todo || now - old(counters)[k].startedAt < PRUNE_AGE_MS
        invariant forall k | k in counters :: counters[k] == old(counters)[k]
      {
        var k :| k in todo;
        todo := todo - {k};
        if now - counters[k].startedAt >= PRUNE_AGE_MS {
          assert CounterOf(counters, k) == NeverPruned(requests, k);
          counters := counters - {k};
        }
      }
    }

    /**
      The account's quota is asked first; a request that it refuses does not reach the
      address's. What is decided depends on the earlier requests alone, never on pruning.
     */
    method AssertHttp(route: Route, account: string, ip: Option<string>, now: int) returns (verdict: Verdict)
      requires Valid() && clock <= now
      modifies this
      ensures Valid() && clock == now
      ensures (verdict, requests) == Decision(old(requests), AccountKey(route, account), IpKey(route, AddressOf(ip)), now)
      ensures DecidedAs(old(requests), AccountKey(route, account), IpKey(route, AddressOf(ip)), now, verdict, requests)
      ensures verdict.Served? ==> |counters| <= 10_000 || forall k | k in counters :: now - counters[k].startedAt < 60_000
    {
      DecisionExactly(requests, AccountKey(route, account), IpKey(route, AddressOf(ip)), now);
      var ok := Take(AccountKey(route, account), now);
      if !ok {
        return RateLimited;
      }
      ok := Take(IpKey(route, AddressOf(ip)), now);
      if !ok {
        return RateLimited;
      }
      if |counters| > PRUNE_ABOVE {
        Prune(now);
      }
      return Served;
    }
  }

  /** An absent or empty address counts as one shared address. */
  function AddressOf(ip: Option<string>): string {
    if ip.GetOr("") == "" then "unknown" else ip.value
  }

  // ----- Live sockets ------------------------------------------------------------------------

  const SOCKETS_PER_ACCOUNT: nat := 5
  const SOCKETS_PER_IP: nat := 2_048

  datatype Socket = Socket(account: string, ip: string)

  /** The live sockets of one account, and of one address. */
  ghost function OfAccount(sockets: map<string, Socket>, account: string): set<string> {
    set id | id in sockets && sockets[id].account == account
  }

  ghost function OfIp(sockets: map<string, Socket>, ip: string): set<string> {
    set id | id in sockets && sockets[id].ip == ip
  }

  function CountOf(counts: map<string, nat>, key: string): nat {
    if key in counts then counts[key] else 0
  }

  function Decremented(counts: map<string, nat>, key: string): (r: map<string, nat>)
    ensures forall k :: CountOf(r, k) == if k == key && CountOf(counts, k) > 0 then CountOf(counts, k) - 1 else CountOf(counts, k)
  {
    var present := if CountOf(counts, key) == 0 then 1 else CountOf(counts, key);
    if present - 1 <= 0 then counts - {key} else counts[key := present - 1]
  }

  class SocketRegistry {
    var sockets: map<string, Socket>
    var accountCounts: map<string, nat>
    var ipCounts: map<string, nat>

    /** The counts are the numbers of live sockets, and within the limits. */
    ghost predicate Valid()
      reads this
    {
      && (forall a :: CountOf(accountCounts, a) == |OfAccount(sockets, a)| <= SOCKETS_PER_ACCOUNT)
      && (forall ip :: CountOf(ipCounts, ip) == |OfIp(sockets, ip)| <= SOCKETS_PER_IP)
    }

    constructor ()
      ensures Valid() && sockets == map[]
    {
      sockets, accountCounts, ipCounts := map[], map[], map[];
    }

    method Acquire(id: string, account: string, address: Option<string>) returns (ok: bool)
      requires Valid()
      modifies this
      ensures Valid()
      ensures ok <==> || id in old(sockets)
                      || (&& |OfAccount(old(sockets), account)| < 5
                          && |OfIp(old(sockets), AddressOf(address))| < 2_048)
      ensures sockets == if ok && id !in old(sockets) then old(sockets)[id := Socket(account, AddressOf(address))] else old(sockets)
    {
      if id in sockets {
        return true;
      }
      var ip := AddressOf(address);
      var accountCount, ipCount := CountOf(accountCounts, account), CountOf(ipCounts, ip);
      if accountCount >= SOCKETS_PER_ACCOUNT || ipCount >= SOCKETS_PER_IP {
        return false;
      }
      SocketAdded(sockets, id, Socket(account, ip));
      sockets := sockets[id := Socket(account, ip)];
      accountCounts := accountCounts[account := accountCount + 1];
      ipCounts := ipCounts[ip := ipCount + 1];
      assert forall a :: CountOf(accountCounts, a) == CountOf(old(accountCounts), a) + if a == account then 1 else 0;
      assert forall i :: CountOf(ipCounts, i) == CountOf(old(ipCounts), i) + if i == ip then 1 else 0;
      return true;
    }

    method Release(id: string)
      requires Valid()
      modifies this
      ensures Valid()
      ensures sockets == old(sockets) - {id}
    {
      if id !in sockets {
        return;
      }
      var socket := sockets[id];
      SocketAdded(sockets - {id}, id, socket);
      assert (sockets - {id})[id := socket] == sockets;
      sockets := sockets - {id};
      accountCounts := Decremented(accountCounts, socket.account);
      ipCounts := Decremented(ipCounts, socket.ip);
    }
  }

  lemma AccountSocketAdded(sockets: map<string, Socket>, id: string, socket: Socket, account: string)
    requires id !in sockets
    ensures |OfAccount(sockets[id := socket], account)|
         == |OfAccount(sockets, account)| + if account == socket.account then 1 else 0
  {
    assert OfAccount(sockets[id := socket], account)
        == OfAccount(sockets, account) + if account == socket.account then {id} else {};
  }

  lemma IpSocketAdded(sockets: map<string, Socket>, id: string, socket: Socket, ip: string)
    requires id !in sockets
    ensures |OfIp(sockets[id := socket], ip)| == |OfIp(sockets, ip)| + if ip == socket.ip then 1 else 0
  {
    assert OfIp(sockets[id := socket], ip) == OfIp(sockets, ip) + if ip == socket.ip then {id} else {};
  }

  lemma SocketAdded(sockets: map<string, Socket>, id: string, socket: Socket)
    requires id !in sockets
    ensures forall a :: |OfAccount(sockets[id := socket], a)| == |OfAccount(sockets, a)| + if a == socket.account then 1 else 0
    ensures forall i :: |OfIp(sockets[id := socket], i)| == |OfIp(sockets, i)| + if i == socket.ip then 1 else 0
  {
    forall a ensures |OfAccount(sockets[id := socket], a)| == |OfAccount(sockets, a)| + if a == socket.account then 1 else 0 {
      AccountSocketAdded(sockets, id, socket, a);
    }
    forall i ensures |OfIp(sockets[id := socket], i)| == |OfIp(sockets, i)| + if i == socket.ip then 1 else 0 {
      IpSocketAdded(sockets, id, socket, i);
    }
  }
}
