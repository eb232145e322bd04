/**
  The in-process sliding-window counter, checked against a plain log of what happened: the
  hits, the resets, and the evictions of the oldest key when there are too many.
 */
module SlidingWindow {
  import opened Basics

  datatype Event = Hit(key: string, at: int) | Reset(key: string) | Evict(key: string)

  /** What one event does to the hits of `key` that lie after `cutoff`. */
  function Follow(before: seq<int>, e: Event, key: string, cutoff: int): seq<int> {
    if e.key != key then before
    else if !e.Hit? then []
    else if e.at > cutoff then before + [e.at]
    else before
  }

  /** The times of the hits of `key` after `cutoff`, since the key was last reset or evicted. */
  ghost function Recent(log: seq<Event>, key: string, cutoff: int): seq<int> {
    if log == [] then [] else Follow(Recent(log[..|log| - 1], key, cutoff), log[|log| - 1], key, cutoff)
  }

  lemma RecentOne(log: seq<Event>, e: Event, key: string, cutoff: int)
    ensures Recent(log + [e], key, cutoff) == Follow(Recent(log, key, cutoff), e, key, cutoff)
  {
    assert (log + [e])[..|log|] == log;
  }

  /** Entry `i` of the log is a hit of the key after `cutoff`, and the key was not reset or evicted since. */
  ghost predicate Counts(log: seq<Event>, i: nat, key: string, cutoff: int) {
    && i < |log| && log[i].Hit? && log[i].key == key && log[i].at > cutoff
    && forall j | i < j < |log| :: log[j].Hit? || log[j].key != key
  }

  ghost function Counted(log: seq<Event>, key: string, cutoff: int): set<nat> {
    set i: nat | i < |log| && Counts(log, i, key, cutoff)
  }

  lemma CountedOneMore(log: seq<Event>, n: nat, key: string, cutoff: int)
    requires |log| == n + 1
    ensures Counted(log, key, cutoff)
         == (if log[n].key == key && !log[n].Hit? then {} else Counted(log[..n], key, cutoff))
            + if Counts(log, n, key, cutoff) then {n} else {}
  {
    var front := log[..n];
    forall i: nat | i < n ensures Counts(log, i, key, cutoff) <==> Counts(front, i, key, cutoff) && (log[n].Hit? || log[n].key != key) {
      assert front[i] == log[i];
    }
  }

  /** What counts towards a limit: the hits of the key in the log, after the cut-off and after its last reset or eviction. */
  lemma {:induction false} RecentCounts(log: seq<Event>, key: string, cutoff: int)
    ensures |Recent(log, key, cutoff)| == |Counted(log, key, cutoff)|
  {
    if log != [] {
      var n, front := |log| - 1, log[..|log| - 1];
      RecentCounts(front, key, cutoff);
      CountedOneMore(log, n, key, cutoff);
      assert n !in Counted(front, key, cutoff);
    }
  }

  function After(times: seq<int>, cutoff: int): (r: seq<int>)
    ensures |r| <= |times|
  {
    if times == [] then []
    else if times[0] > cutoff then [times[0]] + After(times[1..], cutoff)
    else After(times[1..], cutoff)
  }

  lemma {:induction false} AfterAfter(times: seq<int>, c: int, d: int)
    requires c <= d
    ensures After(After(times, c), d) == After(times, d)
  {
    if times != [] {
      AfterAfter(times[1..], c, d);
    }
  }

  lemma {:induction false} AfterAppend(times: seq<int>, t: int, cutoff: int)
    ensures After(times + [t], cutoff) == After(times, cutoff) + if t > cutoff then [t] else []
  {
    if times == [] {
      assert times + [t] == [t];
    } else {
      assert (times + [t])[1..] == times[1..] + [t];
      AfterAppend(times[1..], t, cutoff);
    }
  }

  function Stored(hits: map<string, seq<int>>, key: string): seq<int> {
    if key in hits then hits[key] else []
  }

  /** Whatever window ends at `now` or later, the stored times tell the same as the log. */
  ghost predicate Agrees(hits: map<string, seq<int>>, log: seq<Event>, oldest: int) {
    forall key, cutoff | oldest <= cutoff :: After(Stored(hits, key), cutoff) == Recent(log, key, cutoff)
  }

  /** The keys in insertion order. */
  ghost predicate InOrder(hits: map<string, seq<int>>, order: seq<string>) {
    Distinct(order) && (forall k :: k in order <==> k in hits)
  }

  lemma OrderSize(hits: map<string, seq<int>>, order: seq<string>)
    requires InOrder(hits, order)
    ensures |order| == |hits|
  {
    DistinctSize(order);
    assert Elements(order) == hits.Keys;
  }

  lemma {:induction false} DistinctSize(s: seq<string>)
    requires Distinct(s)
    ensures |Elements(s)| == |s|
  {
    if s != [] {
      var n := |s| - 1;
      DistinctSize(s[..n]);
      assert s == s[..n] + [s[n]];
      assert Elements(s) == Elements(s[..n]) + {s[n]};
    }
  }

  function Without(order: seq<string>, key: string): (r: seq<string>)
    ensures forall k :: k in r <==> k in order && k != key
  {
    if order == [] then []
    else if order[0] == key then Without(order[1..], key)
    else [order[0]] + Without(order[1..], key)
  }

  lemma {:induction false} WithoutDistinct(order: seq<string>, key: string)
    requires Distinct(order)
    ensures Distinct(Without(order, key))
  {
    if order != [] {
      WithoutDistinct(order[1..], key);
      assert order[0] !in order[1..];
    }
  }

  lemma {:induction false} WithoutAbsent(order: seq<string>, key: string)
    requires key !in order
    ensures Without(order, key) == order
  {
    if order != [] {
      WithoutAbsent(order[1..], key);
    }
  }

  lemma WithoutFirst(order: seq<string>)
    requires Distinct(order) && order != []
    ensures Without(order, order[0]) == order[1..]
  {
    WithoutAbsent(order[1..], order[0]);
  }

  /** `a` comes before `b`. */
  ghost predicate Before(order: seq<string>, a: string, b: string) {
    exists i, j :: 0 <= i < j < |order| && order[i] == a && order[j] == b
  }

  lemma {:induction false} WithoutKeepsOrder(order: seq<string>, key: string, a: string, b: string)
    requires a != key && b != key
    ensures Before(Without(order, key), a, b) <==> Before(order, a, b)
  {
    if order != [] {
      var rest, kept := order[1..], Without(order[1..], key);
      WithoutKeepsOrder(rest, key, a, b);
      BeforeStep(order, a, b);
      if order[0] != key {
        BeforeStep([order[0]] + kept, a, b);
      }
    }
  }

  lemma BeforeStep(order: seq<string>, a: string, b: string)
    requires order != []
    ensures Before(order, a, b) <==> Before(order[1..], a, b) || (order[0] == a && b in order[1..])
  {
    var rest := order[1..];
    if i, j :| 0 <= i < j < |order| && order[i] == a && order[j] == b {
      assert order[j] == rest[j - 1];
      if i > 0 {
        assert rest[i - 1] == a && rest[j - 1] == b;
      }
    }
    if i, j :| 0 <= i < j < |rest| && rest[i] == a && rest[j] == b {
      assert order[i + 1] == a && order[j + 1] == b;
    }
    if order[0] == a && b in rest {
      var j :| 0 <= j < |rest| && rest[j] == b;
      assert order[0] == a && order[j + 1] == b;
    }
  }

  /** A key that still has hits keeps its place; another is inserted behind all. The others keep their order. */
  lemma HitKeepsOrder(order: seq<string>, key: string, recent: bool, a: string, b: string)
    requires Distinct(order) && a != key && b != key && (recent ==> key in order)
    ensures Before(OrderAfterHit(order, key, recent), a, b) <==> Before(order, a, b)
    ensures recent ==> (Before(OrderAfterHit(order, key, recent), a, key) <==> Before(order, a, key))
    ensures !recent ==> (Before(OrderAfterHit(order, key, recent), a, key) <==> a in order)
  {
    if !recent {
      var kept := Without(order, key);
      WithoutKeepsOrder(order, key, a, b);
      var all := kept + [key];
      if i, j :| 0 <= i < j < |all| && all[i] == a && all[j] == b {
        assert kept[i] == a && kept[j] == b;
      }
      if i, j :| 0 <= i < j < |kept| && kept[i] == a && kept[j] == b {
        assert all[i] == a && all[j] == b;
      }
      if a in kept {
        var i :| 0 <= i < |kept| && kept[i] == a;
        assert all[i] == a && all[|kept|] == key;
      }
      if i, j :| 0 <= i < j < |all| && all[i] == a && all[j] == key {
        assert kept[i] == a;
      }
    }
  }

  /** The insertion order once a hit of the key is stored, which keeps its place while it had a hit in the window. */
  function OrderAfterHit(order: seq<string>, key: string, recent: bool): seq<string> {
    if recent then order else Without(order, key) + [key]
  }

  lemma StoredSizes(was: map<string, seq<int>>, pruned: map<string, seq<int>>, key: string, times: seq<int>)
    requires pruned.Keys <= was.Keys
    ensures |pruned[key := times]| <= |pruned| + 1 && |pruned[key := times]| <= |was.Keys + {key}|
  {
    var after := pruned[key := times];
    assert after.Keys == pruned.Keys + {key};
    assert |after.Keys| == if key in pruned then |pruned.Keys| else |pruned.Keys| + 1;
    SubsetSize(after.Keys, was.Keys + {key});
  }

  /** Taking the oldest key away. */
  lemma FirstDropped(hits: map<string, seq<int>>, order: seq<string>)
    requires InOrder(hits, order) && order != []
    ensures order[0] in hits && |hits - {order[0]}| + 1 == |hits| && Without(order, order[0]) == order[1..]
  {
    assert order[0] in order;
    assert hits.Keys == (hits - {order[0]}).Keys + {order[0]};
    WithoutFirst(order);
  }

  class SlidingWindowCounter {
    const limit: nat
    const windowMs: nat
    const maxKeys: nat

    var hits: map<string, seq<int>>
    /** The insertion order of the map's keys. */
    var order: seq<string>

    ghost var log: seq<Event>
    /** The latest time that a caller has passed. */
    ghost var clock: int

    ghost predicate Valid()
      reads this
    {
      InOrder(hits, order) && |hits| <= maxKeys && Agrees(hits, log, clock - windowMs)
    }

    constructor (limit: nat, windowMs: nat, maxKeys: nat, ghost start: int)
      ensures Valid() && log == [] && clock == start
      ensures this.limit == limit && this.windowMs == windowMs && this.maxKeys == maxKeys
    {
      this.limit, this.windowMs, this.maxKeys := limit, windowMs, maxKeys;
      hits, order := map[], [];
      log, clock := [], start;
    }

    method Forget(key: string)
      requires InOrder(hits, order)
      modifies this`hits, this`order
      ensures InOrder(hits, order) && hits == old(hits) - {key} && order == Without(old(order), key)
    {
      WithoutDistinct(order, key);
      hits, order := hits - {key}, Without(order, key);
    }

    method Store(key: string, times: seq<int>)
      requires InOrder(hits, order)
      modifies this`hits, this`order
      ensures InOrder(hits, order) && hits == old(hits)[key := times]
      ensures order == if key in old(hits) then old(order) else old(order) + [key]
    {
      if key !in hits {
        order := order + [key];
      }
      hits := hits[key := times];
    }

    /** Drops the expired hits of one key. */
    method Prune(key: string, now: int) returns (kept: seq<int>)
      requires Valid() && clock <= now
      modifies this`hits, this`order, this`clock
      ensures Valid() && clock == now
      ensures kept == After(Stored(hits, key), now - windowMs) == Stored(hits, key)
      ensures kept == Recent(log, key, now - windowMs)
      ensures hits.Keys <= old(hits.Keys)
      ensures if |kept| > 0 then key in hits && order == old(order) else key !in hits && order == Without(old(order), key)
    {
      var cutoff := now - windowMs;
      ghost var before := hits;
      kept := After(Stored(hits, key), cutoff);
      if |kept| > 0 {
        Store(key, kept);
      } else {
        Forget(key);
      }
      clock := now;
      PruneAgrees(before, log, old(clock) - windowMs, key, cutoff, hits);
      SubsetSize(hits.Keys, before.Keys);
    }

    /** The number of hits in the window that ends now, as the log has them. */
    method Count(key: string, now: int) returns (n: nat)
      requires Valid() && clock <= now
      modifies this`hits, this`order, this`clock
      ensures Valid() && clock == now
      ensures n == |Recent(log, key, now - windowMs)|
    {
      var kept := Prune(key, now);
      n := |kept|;
    }

    /** Adds a hit to those of its key that are in the window. */
    method Append(key: string, now: int) returns (n: nat)
      requires Valid() && clock <= now
      modifies this`hits, this`order, this`log, this`clock
      ensures InOrder(hits, order) && Agrees(hits, log, now - windowMs) && clock == now
      ensures n == |Recent(old(log), key, now - windowMs)| + 1
      ensures log == old(log) + [Hit(key, now)]
      ensures order == OrderAfterHit(old(order), key, |Recent(old(log), key, now - windowMs)| > 0)
      ensures |order| == |hits| <= maxKeys + 1 && |hits| <= |old(hits).Keys + {key}|
    {
      var kept := Prune(key, now);
      ghost var pruned := hits;
      HitAgrees(hits, log, now - windowMs, key, now, hits[key := kept + [now]]);
      kept := kept + [now];
      Store(key, kept);
      log := log + [Hit(key, now)];
      OrderSize(hits, order);
      StoredSizes(old(hits), pruned, key, kept);
      n := |kept|;
    }

    /**
      Records a hit, and says whether the key is over its limit. Only when the table is then too
      full is a key evicted, and it is the first in insertion order.
     */
    method RecordHit(key: string, now: int) returns (over: bool)
      requires Valid() && clock <= now
      modifies this`hits, this`order, this`log, this`clock
      ensures Valid() && clock == now
      ensures over <==> |Recent(old(log), key, now - windowMs)| + 1 > limit
      ensures var inserted := OrderAfterHit(old(order), key, |Recent(old(log), key, now - windowMs)| > 0);
              if |inserted| <= maxKeys then log == old(log) + [Hit(key, now)] && order == inserted
              else log == old(log) + [Hit(key, now)] + [Evict(inserted[0])] && order == inserted[1..]
      ensures |old(hits).Keys + {key}| <= maxKeys ==> log == old(log) + [Hit(key, now)]
    {
      var n := Append(key, now);
      if |hits| > maxKeys {
        EvictOldest();
      }
      over := n > limit;
    }

    /** Drops the key that was inserted first. */
    method EvictOldest()
      requires InOrder(hits, order) && |hits| == maxKeys + 1 && Agrees(hits, log, clock - windowMs) && order != []
      modifies this`hits, this`order, this`log
      ensures Valid() && order == old(order[1..]) && log == old(log) + [Evict(old(order[0]))]
    {
      var oldest := order[0];
      FirstDropped(hits, order);
      EvictAgrees(hits, log, clock - windowMs, Evict(oldest));
      Forget(oldest);
      log := log + [Evict(oldest)];
    }

    /** Clears a key. */
    method ResetKey(key: string)
      requires Valid()
      modifies this`hits, this`order, this`log
      ensures Valid() && log == old(log) + [Reset(key)]
      ensures forall cutoff :: Recent(log, key, cutoff) == []
    {
      EvictAgrees(hits, log, clock - windowMs, Reset(key));
      ghost var before := hits;
      Forget(key);
      assert hits.Keys <= before.Keys;
      SubsetSize(hits.Keys, before.Keys);
      log := log + [Reset(key)];
      forall cutoff ensures Recent(log, key, cutoff) == [] {
        RecentOne(old(log), Reset(key), key, cutoff);
      }
    }
  }

  lemma PruneAgrees(hits: map<string, seq<int>>, log: seq<Event>, oldest: int, key: string, cutoff: int, after: map<string, seq<int>>)
    requires Agrees(hits, log, oldest) && oldest <= cutoff
    requires var kept := After(Stored(hits, key), cutoff); after == if kept == [] then hits - {key} else hits[key := kept]
    ensures Agrees(after, log, cutoff) && after.Keys <= hits.Keys
    ensures After(Stored(after, key), cutoff) == Stored(after, key) == Recent(log, key, cutoff)
  {
    AfterAfter(Stored(hits, key), cutoff, cutoff);
    forall k, c | cutoff <= c ensures After(Stored(after, k), c) == Recent(log, k, c) {
      assert After(Stored(hits, k), c) == Recent(log, k, c);
      AfterAfter(Stored(hits, key), cutoff, c);
    }
  }

  lemma HitAgrees(hits: map<string, seq<int>>, log: seq<Event>, oldest: int, key: string, at: int, after: map<string, seq<int>>)
    requires Agrees(hits, log, oldest)
    requires after == hits[key := Stored(hits, key) + [at]]
    ensures Agrees(after, log + [Hit(key, at)], oldest)
  {
    forall k, c | oldest <= c ensures After(Stored(after, k), c) == Recent(log + [Hit(key, at)], k, c) {
      RecentOne(log, Hit(key, at), k, c);
      assert After(Stored(hits, k), c) == Recent(log, k, c);
      if k == key {
        AfterAppend(Stored(hits, key), at, c);
      }
    }
  }

  lemma EvictAgrees(hits: map<string, seq<int>>, log: seq<Event>, oldest: int, e: Event)
    requires Agrees(hits, log, oldest) && !e.Hit?
    ensures Agrees(hits - {e.key}, log + [e], oldest)
  {
    forall k, c | oldest <= c ensures After(Stored(hits - {e.key}, k), c) == Recent(log + [e], k, c) {
      RecentOne(log, e, k, c);
      assert After(Stored(hits, k), c) == Recent(log, k, c);
    }
  }
}
