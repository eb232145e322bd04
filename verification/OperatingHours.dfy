/**
  Store operating hours: frames within a calendar day, the business day they make up on the
  24-hour circle, and the older single open/close pair.
 */
module OperatingHours {
  import opened Basics

  const DAY: nat := 1440
  const FRAMES_MAX: nat := 6

  datatype Frame = Frame(start: string, end: string)

  datatype Span = Span(start: nat, end: nat)

  // ----- Clock strings ---------------------------------------------------------------------

  predicate IsDigit(c: char) {
    '0' <= c <= '9'
  }

  function DigitValue(c: char): (v: nat)
    requires IsDigit(c)
    ensures v < 10
  {
    c as int - '0' as int
  }

  function Digit(v: nat): (c: char)
    requires v < 10
    ensures IsDigit(c) && DigitValue(c) == v
  {
    ('0' as int + v) as char
  }

  function Pad(v: nat): string
    requires v < 100
  {
    [Digit(v / 10), Digit(v % 10)]
  }

  /** "HH:mm" or "HH:mm:00" as minutes; "24:00" is 1440. */
  function FrameMinutes(s: string): (m: Option<nat>)
    ensures m.Some? ==> m.value <= DAY
  {
    if (|s| == 5 || (|s| == 8 && s[5..] == ":00")) && s[2] == ':' && IsDigit(s[0]) && IsDigit(s[1]) && IsDigit(s[3]) && IsDigit(s[4]) then
      var hours := DigitValue(s[0]) * 10 + DigitValue(s[1]);
      var minutes := DigitValue(s[3]) * 10 + DigitValue(s[4]);
      if minutes > 59 || hours > 24 || (hours == 24 && minutes != 0) then None else Some(hours * 60 + minutes)
    else None
  }

  function FrameClock(m: nat): (s: string)
    requires m <= DAY
    ensures |s| == 5
  {
    Pad(m / 60) + ":" + Pad(m % 60)
  }

  /** The clock string of any minute of the day, 24:00 included, reads back as that minute, with or without seconds. */
  lemma ClockRoundTrip(m: nat)
    requires m <= DAY
    ensures FrameMinutes(FrameClock(m)) == Some(m)
    ensures FrameMinutes(FrameClock(m) + ":00") == Some(m)
    ensures (FrameClock(m) + ":00")[..5] == FrameClock(m)
  {
    var s := FrameClock(m);
    assert s[0] == Digit(m / 60 / 10) && s[1] == Digit(m / 60 % 10) && s[2] == ':';
    assert s[3] == Digit(m % 60 / 10) && s[4] == Digit(m % 60 % 10);
    assert (s + ":00")[5..] == ":00";
  }

  // ----- Sorting spans ---------------------------------------------------------------------

  predicate StartsBefore(a: Span, b: Span) {
    a.start <= b.start
  }

  /** A stable sort by start. */
  function InsertSpan(x: Span, s: seq<Span>): seq<Span> {
    if s == [] || StartsBefore(x, s[0]) then [x] + s else [s[0]] + InsertSpan(x, s[1..])
  }

  function SortSpans(s: seq<Span>): seq<Span> {
    if s == [] then [] else InsertSpan(s[0], SortSpans(s[1..]))
  }

  ghost predicate SortedByStart(s: seq<Span>) {
    forall i, j | 0 <= i < j < |s| :: s[i].start <= s[j].start
  }

  lemma {:induction false} InsertContents(x: Span, s: seq<Span>)
    ensures multiset(InsertSpan(x, s)) == multiset{x} + multiset(s) && |InsertSpan(x, s)| == |s| + 1
  {
    if s != [] && !StartsBefore(x, s[0]) {
      InsertContents(x, s[1..]);
      assert s == [s[0]] + s[1..];
    }
  }

  lemma {:induction false} InsertSorted(x: Span, s: seq<Span>)
    requires SortedByStart(s)
    ensures SortedByStart(InsertSpan(x, s))
  {
    if s != [] && !StartsBefore(x, s[0]) {
      var r := InsertSpan(x, s[1..]);
      InsertSorted(x, s[1..]);
      InsertContents(x, s[1..]);
      forall y | y in r ensures s[0].start <= y.start {
        assert y in multiset(r);
        assert y == x || y in s[1..];
      }
    }
  }

  lemma {:induction false} SortSorts(s: seq<Span>)
    ensures SortedByStart(SortSpans(s)) && multiset(SortSpans(s)) == multiset(s) && |SortSpans(s)| == |s|
  {
    if s != [] {
      SortSorts(s[1..]);
      InsertContents(s[0], SortSpans(s[1..]));
      InsertSorted(s[0], SortSpans(s[1..]));
      assert s == [s[0]] + s[1..];
    }
  }

  lemma {:induction false} SortOfSorted(s: seq<Span>)
    requires SortedByStart(s)
    ensures SortSpans(s) == s
  {
    if s != [] {
      SortOfSorted(s[1..]);
      assert s == [s[0]] + s[1..];
    }
  }

  // ----- The business day ------------------------------------------------------------------

  /** What normalising frames leaves: at least one span, none crossing midnight, in order, without overlap. */
  ghost predicate Normalised(spans: seq<Span>) {
    && spans != []
    && (forall i | 0 <= i < |spans| :: spans[i].start < spans[i].end <= DAY)
    && (forall i, j | 0 <= i < j < |spans| :: spans[i].end <= spans[j].start)
  }

  /** The closed time after span `i`; after the last span it wraps past midnight to the first. */
  function GapAfter(spans: seq<Span>, i: nat): int
    requires i < |spans|
  {
    if i == |spans| - 1 then spans[0].start + DAY - spans[i].end else spans[i + 1].start - spans[i].end
  }

  /** The first longest gap among the first `n`, and its length, starting from -1. */
  function BestGap(spans: seq<Span>, n: nat): (best: (nat, int))
    requires n <= |spans|
    ensures n == 0 ==> best == (0, -1)
    ensures n > 0 ==> best.0 < n
    ensures best.1 >= 0 ==> n > 0 && best.1 == GapAfter(spans, best.0)
    ensures forall i | 0 <= i < n :: GapAfter(spans, i) <= best.1
  {
    if n == 0 then (0, -1)
    else
      var b := BestGap(spans, n - 1);
      if GapAfter(spans, n - 1) > b.1 then (n - 1, GapAfter(spans, n - 1)) else b
  }

  /** The span after span `i` on the circle. */
  function Next(spans: seq<Span>, i: nat): (j: nat)
    requires i < |spans|
    ensures j < |spans|
  {
    if i + 1 == |spans| then 0 else i + 1
  }

  lemma NextIsModulo(spans: seq<Span>, i: nat)
    requires i < |spans|
    ensures (i + 1) % |spans| == Next(spans, i)
  {
  }

  function DayOfSpans(spans: seq<Span>): (day: Span)
    requires spans != []
  {
    var (i, gap) := BestGap(spans, |spans|);
    if gap <= 0 then Span(0, DAY)
    else
      var first, last := spans[Next(spans, i)], spans[i];
      Span(first.start, if last.end <= first.start then last.end + DAY else last.end)
  }

  function SpanOf(f: Frame): Option<Span> {
    var start, end := FrameMinutes(f.start), FrameMinutes(f.end);
    if start.Some? && end.Some? && end.value > start.value then Some(Span(start.value, end.value)) else None
  }

  function SpansOf(frames: seq<Frame>): (spans: seq<Span>)
    ensures |spans| <= |frames|
  {
    if frames == [] then []
    else if SpanOf(frames[0]).Some? then [SpanOf(frames[0]).value] + SpansOf(frames[1..])
    else SpansOf(frames[1..])
  }

  function BusinessDay(frames: seq<Frame>): Option<Span> {
    var spans := SortSpans(SpansOf(frames));
    if spans == [] then None else Some(DayOfSpans(spans))
  }

  method BusinessDayOf(frames: seq<Frame>) returns (day: Option<Span>)
    ensures day == BusinessDay(frames)
  {
    var spans := SortSpans(SpansOf(frames));
    if spans == [] {
      return None;
    }
    var bestIndex, bestGap := 0, -1;
    for index := 0 to |spans|
      invariant (bestIndex, bestGap) == BestGap(spans, index)
    {
      NextIsModulo(spans, index);
      var next := spans[(index + 1) % |spans|];
      var gap := if index == |spans| - 1 then next.start + DAY - spans[index].end else next.start - spans[index].end;
      if gap > bestGap {
        bestGap, bestIndex := gap, index;
      }
    }
    if bestGap <= 0 {
      return Some(Span(0, DAY));
    }
    NextIsModulo(spans, bestIndex);
    var first, last := spans[(bestIndex + 1) % |spans|], spans[bestIndex];
    return Some(Span(first.start, if last.end <= first.start then last.end + DAY else last.end));
  }

  /** The arc covers the span on the 24-hour circle, today or as the time after midnight. */
  predicate Covers(arc: Span, s: Span) {
    (arc.start <= s.start && s.end <= arc.end) || (arc.start <= s.start + DAY && s.end + DAY <= arc.end)
  }

  ghost predicate CoversAll(arc: Span, spans: seq<Span>) {
    forall i | 0 <= i < |spans| :: Covers(arc, spans[i])
  }

  lemma GapsNotNegative(spans: seq<Span>)
    requires Normalised(spans)
    ensures forall i | 0 <= i < |spans| :: GapAfter(spans, i) >= 0
  {
  }

  /** The business day covers every span, and leaves exactly the longest gap of the circle out. */
  lemma BusinessDayCovers(spans: seq<Span>)
    requires Normalised(spans)
    ensures var day := DayOfSpans(spans);
            && day.start < DAY && CoversAll(day, spans)
            && day.end - day.start == DAY - BestGap(spans, |spans|).1
  {
    GapsNotNegative(spans);
    var (i, gap) := BestGap(spans, |spans|);
    assert GapAfter(spans, 0) <= gap;
    if gap > 0 && i < |spans| - 1 {
      assert spans[i].end <= spans[i + 1].start;
    }
  }

  /** The first span that an arc covers today rather than after midnight. */
  lemma FirstToday(arc: Span, spans: seq<Span>) returns (k: nat)
    requires Normalised(spans) && CoversAll(arc, spans) && arc.start < DAY && arc.end - arc.start < DAY
    ensures k <= |spans|
    ensures forall i | 0 <= i < k :: arc.start > spans[i].start && spans[i].end + DAY <= arc.end
    ensures forall i | k <= i < |spans| :: arc.start <= spans[i].start && spans[i].end <= arc.end
  {
    k := 0;
    while k < |spans| && spans[k].start < arc.start
      invariant k <= |spans|
      invariant forall i | 0 <= i < k :: arc.start > spans[i].start && spans[i].end + DAY <= arc.end
    {
      assert Covers(arc, spans[k]);
      k := k + 1;
    }
    forall i | k <= i < |spans| ensures arc.start <= spans[i].start && spans[i].end <= arc.end {
      assert Covers(arc, spans[i]);
      assert k < i ==> spans[k].end <= spans[i].start;
    }
  }

  /** Every arc that covers all spans is at least as long as the business day. */
  lemma BusinessDayIsShortest(spans: seq<Span>, arc: Span)
    requires Normalised(spans) && arc.start < DAY && arc.start <= arc.end && CoversAll(arc, spans)
    ensures DayOfSpans(spans).end - DayOfSpans(spans).start <= arc.end - arc.start
  {
    BusinessDayCovers(spans);
    GapsNotNegative(spans);
    var n, gap := |spans|, BestGap(spans, |spans|).1;
    assert GapAfter(spans, 0) <= gap;
    if arc.end - arc.start < DAY {
      var k := FirstToday(arc, spans);
      if k == 0 || k == n {
        assert GapAfter(spans, n - 1) <= gap;
        assert 0 < n - 1 ==> spans[0].end <= spans[n - 1].start;
      } else {
        assert GapAfter(spans, k - 1) <= gap;
      }
    }
  }

  // ----- Normalising frames ----------------------------------------------------------------

  datatype Problem = NoFrames | TooMany | Invalid(index: nat) | Backwards(index: nat) | Overlapping

  datatype Normalization = Frames(frames: seq<Frame>) | Refused(problem: Problem)

  function FrameProblem(f: Frame, index: nat): (p: Option<Problem>)
    ensures p.None? <==> SpanOf(f).Some?
  {
    var start, end := FrameMinutes(f.start), FrameMinutes(f.end);
    if start.None? || end.None? || start.value >= DAY then Some(Invalid(index))
    else if end.value <= start.value then Some(Backwards(index))
    else None
  }

  function FirstProblem(frames: seq<Frame>, index: nat): (p: Option<Problem>)
    requires index <= |frames|
    ensures p.None? <==> forall i | index <= i < |frames| :: SpanOf(frames[i]).Some?
    decreases |frames| - index
  {
    if index == |frames| then None
    else if FrameProblem(frames[index], index).Some? then FrameProblem(frames[index], index)
    else FirstProblem(frames, index + 1)
  }

  predicate OverlapAmong(spans: seq<Span>, n: nat)
    requires n <= |spans|
  {
    exists i | 1 <= i < n :: spans[i].start < spans[i - 1].end
  }

  function FramesOf(spans: seq<Span>): (frames: seq<Frame>)
    requires forall s | s in spans :: s.start <= DAY && s.end <= DAY
    ensures |frames| == |spans|
  {
    if spans == [] then []
    else [Frame(FrameClock(spans[0].start), FrameClock(spans[0].end))] + FramesOf(spans[1..])
  }

  lemma {:induction false} SpansInDay(frames: seq<Frame>)
    ensures forall s | s in SpansOf(frames) :: s.start < s.end <= DAY
  {
    if frames != [] {
      SpansInDay(frames[1..]);
    }
  }

  lemma SortedInDay(frames: seq<Frame>)
    ensures forall s | s in SortSpans(SpansOf(frames)) :: s.start < s.end <= DAY
  {
    SpansInDay(frames);
    SortSorts(SpansOf(frames));
    forall s | s in SortSpans(SpansOf(frames)) ensures s in SpansOf(frames) {
      assert s in multiset(SortSpans(SpansOf(frames)));
    }
  }

  function Normalize(frames: seq<Frame>): Normalization {
    if frames == [] then Refused(NoFrames)
    else if |frames| > FRAMES_MAX then Refused(TooMany)
    else if FirstProblem(frames, 0).Some? then Refused(FirstProblem(frames, 0).value)
    else
      SortedInDay(frames);
      var spans := SortSpans(SpansOf(frames));
      if OverlapAmong(spans, |spans|) then Refused(Overlapping) else Frames(FramesOf(spans))
  }

  /**
    Sorting by start alone gives the same outcome as by start and end: spans with the same
    start overlap in either order.
   */
  method NormalizeOperatingFrames(frames: seq<Frame>) returns (r: Normalization)
    ensures r == Normalize(frames)
  {
    if |frames| == 0 {
      return Refused(NoFrames);
    }
    if |frames| > FRAMES_MAX {
      return Refused(TooMany);
    }
    for index := 0 to |frames|
      invariant FirstProblem(frames, index) == FirstProblem(frames, 0)
    {
      var problem := FrameProblem(frames[index], index);
      if problem.Some? {
        return Refused(problem.value);
      }
    }
    SortedInDay(frames);
    var parsed := SortSpans(SpansOf(frames));
    for index := 1 to |parsed|
      invariant !OverlapAmong(parsed, index)
    {
      if parsed[index].start < parsed[index - 1].end {
        return Refused(Overlapping);
      }
    }
    return Frames(FramesOf(parsed));
  }

  lemma {:induction false} SpansOfFrames(spans: seq<Span>)
    requires forall s | s in spans :: s.start < s.end <= DAY
    ensures SpansOf(FramesOf(spans)) == spans
    ensures forall f | f in FramesOf(spans) :: SpanOf(f).Some?
  {
    if spans != [] {
      assert spans[0] in spans;
      SpansOfFrames(spans[1..]);
      ClockRoundTrip(spans[0].start);
      ClockRoundTrip(spans[0].end);
    }
  }

  lemma {:induction false} ChainedIsNormalised(spans: seq<Span>, i: nat, j: nat)
    requires forall k | 0 <= k < |spans| :: spans[k].start < spans[k].end
    requires !OverlapAmong(spans, |spans|)
    requires i < j < |spans|
    ensures spans[i].end <= spans[j].start
    decreases j - i
  {
    assert spans[j - 1].end <= spans[j].start;
    if i < j - 1 {
      ChainedIsNormalised(spans, i, j - 1);
    }
  }

  lemma AcceptedIsNormalised(spans: seq<Span>)
    requires spans != [] && forall s | s in spans :: s.start < s.end <= DAY
    ensures !OverlapAmong(spans, |spans|) <==> Normalised(spans)
  {
    assert forall i | 0 <= i < |spans| :: spans[i] in spans;
    if !OverlapAmong(spans, |spans|) {
      forall i, j | 0 <= i < j < |spans| ensures spans[i].end <= spans[j].start {
        ChainedIsNormalised(spans, i, j);
      }
    }
  }

  lemma {:induction false} AllSpansKept(frames: seq<Frame>)
    requires forall f | f in frames :: SpanOf(f).Some?
    ensures |SpansOf(frames)| == |frames|
  {
    if frames != [] {
      assert frames[0] in frames;
      AllSpansKept(frames[1..]);
    }
  }

  /** Accepted frames are the given ones in normal order. */
  lemma NormalizedResult(frames: seq<Frame>)
    requires Normalize(frames).Frames?
    ensures var r := Normalize(frames).frames;
            && Normalised(SpansOf(r))
            && SpansOf(r) == SortSpans(SpansOf(frames))
            && multiset(SpansOf(r)) == multiset(SpansOf(frames))
            && |r| == |frames|
  {
    var spans := SortSpans(SpansOf(frames));
    SortedInDay(frames);
    SortSorts(SpansOf(frames));
    assert forall f | f in frames :: SpanOf(f).Some?;
    AllSpansKept(frames);
    AcceptedIsNormalised(spans);
    SpansOfFrames(spans);
  }

  /** Normalising what was accepted changes nothing. */
  lemma NormalizeTwice(frames: seq<Frame>)
    requires Normalize(frames).Frames?
    ensures Normalize(Normalize(frames).frames) == Normalize(frames)
  {
    var spans := SortSpans(SpansOf(frames));
    var r := Normalize(frames).frames;
    NormalizedResult(frames);
    SortedInDay(frames);
    SpansOfFrames(spans);
    SortOfSorted(spans);
    assert forall i | 0 <= i < |r| :: r[i] in r;
  }

  // ----- Overlaps --------------------------------------------------------------------------

  predicate ShareTime(a: Span, b: Span) {
    a.start < b.end && b.start < a.end
  }

  ghost predicate NoneShare(spans: seq<Span>) {
    forall i, j | 0 <= i < j < |spans| :: !ShareTime(spans[i], spans[j])
  }

  lemma NoneShareFirst(x: Span, s: seq<Span>)
    ensures NoneShare([x] + s) <==> NoneShare(s) && forall y | y in s :: !ShareTime(x, y)
  {
    var t := [x] + s;
    if NoneShare(t) {
      forall i, j | 0 <= i < j < |s| ensures !ShareTime(s[i], s[j]) {
        assert !ShareTime(t[i + 1], t[j + 1]);
      }
      forall y | y in s ensures !ShareTime(x, y) {
        var i :| 0 <= i < |s| && s[i] == y;
        assert !ShareTime(t[0], t[i + 1]);
      }
    }
  }

  lemma InsertMembers(x: Span, s: seq<Span>)
    ensures forall y :: y in InsertSpan(x, s) <==> y == x || y in s
  {
    InsertContents(x, s);
    forall y ensures y in InsertSpan(x, s) <==> y == x || y in s {
      assert y in InsertSpan(x, s) <==> y in multiset(InsertSpan(x, s));
    }
  }

  lemma {:induction false} InsertShares(x: Span, s: seq<Span>)
    ensures NoneShare(InsertSpan(x, s)) <==> NoneShare(s) && forall y | y in s :: !ShareTime(x, y)
  {
    if s == [] || StartsBefore(x, s[0]) {
      NoneShareFirst(x, s);
    } else {
      var first, rest := s[0], s[1..];
      assert s == [first] + rest;
      InsertShares(x, rest);
      InsertMembers(x, rest);
      NoneShareFirst(first, InsertSpan(x, rest));
      NoneShareFirst(first, rest);
      assert ShareTime(first, x) <==> ShareTime(x, first);
      assert forall y :: y in s <==> y == first || y in rest;
    }
  }

  /** Sorting makes no two spans share time, nor keeps them from it. */
  lemma {:induction false} SortShares(s: seq<Span>)
    ensures NoneShare(SortSpans(s)) <==> NoneShare(s)
  {
    if s != [] {
      SortShares(s[1..]);
      InsertShares(s[0], SortSpans(s[1..]));
      NoneShareFirst(s[0], s[1..]);
      assert s == [s[0]] + s[1..];
      SortSorts(s[1..]);
      forall y ensures y in s[1..] <==> y in SortSpans(s[1..]) {
        assert y in s[1..] <==> y in multiset(s[1..]);
      }
    }
  }

  lemma SortedShares(spans: seq<Span>)
    requires spans != [] && SortedByStart(spans) && forall s | s in spans :: s.start < s.end <= DAY
    ensures NoneShare(spans) <==> Normalised(spans)
  {
    assert forall i | 0 <= i < |spans| :: spans[i] in spans;
    if NoneShare(spans) {
      forall i, j | 0 <= i < j < |spans| ensures spans[i].end <= spans[j].start {
        assert !ShareTime(spans[i], spans[j]) && spans[i].start <= spans[j].start;
      }
    }
  }

  lemma {:induction false} SpanAt(frames: seq<Frame>, i: nat)
    requires i < |frames| && forall f | f in frames :: SpanOf(f).Some?
    ensures |SpansOf(frames)| == |frames| && SpanOf(frames[i]) == Some(SpansOf(frames)[i])
  {
    AllSpansKept(frames);
    if i > 0 {
      SpanAt(frames[1..], i - 1);
    }
  }

  ghost predicate FramesShare(frames: seq<Frame>, i: nat, j: nat)
    requires i < |frames| && j < |frames|
  {
    SpanOf(frames[i]).Some? && SpanOf(frames[j]).Some? && ShareTime(SpanOf(frames[i]).value, SpanOf(frames[j]).value)
  }

  lemma AcceptedUnlessShared(frames: seq<Frame>)
    requires frames != [] && |frames| <= FRAMES_MAX && forall f | f in frames :: SpanOf(f).Some?
    ensures if NoneShare(SpansOf(frames)) then Normalize(frames).Frames? else Normalize(frames) == Refused(Overlapping)
  {
    var spans := SpansOf(frames);
    assert forall i | 0 <= i < |frames| :: frames[i] in frames;
    SortedInDay(frames);
    SortSorts(spans);
    AllSpansKept(frames);
    AcceptedIsNormalised(SortSpans(spans));
    SortedShares(SortSpans(spans));
    SortShares(spans);
  }

  lemma SharedSpans(frames: seq<Frame>, spans: seq<Span>)
    requires |spans| == |frames| && forall i | 0 <= i < |frames| :: SpanOf(frames[i]) == Some(spans[i])
    ensures NoneShare(spans) <==> forall i, j | 0 <= i < j < |frames| :: !FramesShare(frames, i, j)
  {
    assert forall i, j | 0 <= i < j < |frames| :: FramesShare(frames, i, j) <==> ShareTime(spans[i], spans[j]);
  }

  /** Up to six frames that are each valid are refused if and only if two of those given share time, and then for overlap. */
  lemma OverlapExactly(frames: seq<Frame>)
    requires frames != [] && |frames| <= FRAMES_MAX && forall f | f in frames :: SpanOf(f).Some?
    ensures Normalize(frames).Refused? <==> exists i, j :: 0 <= i < j < |frames| && FramesShare(frames, i, j)
    ensures Normalize(frames).Refused? ==> Normalize(frames) == Refused(Overlapping)
  {
    AcceptedUnlessShared(frames);
    AllSpansKept(frames);
    forall i | 0 <= i < |frames| ensures SpanOf(frames[i]) == Some(SpansOf(frames)[i]) {
      SpanAt(frames, i);
    }
    SharedSpans(frames, SpansOf(frames));
  }

  lemma SameSpansCovered(arc: Span, a: seq<Span>, b: seq<Span>)
    requires multiset(a) == multiset(b) && CoversAll(arc, a)
    ensures CoversAll(arc, b)
  {
    forall i | 0 <= i < |b| ensures Covers(arc, b[i]) {
      assert b[i] in multiset(a);
      var j :| 0 <= j < |a| && a[j] == b[i];
    }
  }

  lemma AcceptedSpans(frames: seq<Frame>, arc: Span)
    requires Normalize(frames).Frames?
    ensures CoversAll(arc, SpansOf(Normalize(frames).frames)) <==> CoversAll(arc, SpansOf(frames))
  {
    NormalizedResult(frames);
    var a, b := SpansOf(Normalize(frames).frames), SpansOf(frames);
    if CoversAll(arc, a) {
      SameSpansCovered(arc, a, b);
    }
    if CoversAll(arc, b) {
      SameSpansCovered(arc, b, a);
    }
  }

  lemma AcceptedDay(frames: seq<Frame>)
    requires Normalize(frames).Frames?
    ensures Normalised(SpansOf(Normalize(frames).frames))
    ensures BusinessDay(Normalize(frames).frames) == Some(DayOfSpans(SpansOf(Normalize(frames).frames)))
  {
    NormalizedResult(frames);
    SortOfSorted(SpansOf(Normalize(frames).frames));
  }

  /** On frames that were accepted, the business day is the shortest arc of the circle that covers every frame. */
  lemma AcceptedBusinessDay(frames: seq<Frame>, arc: Span)
    requires Normalize(frames).Frames?
    ensures var day, spans := BusinessDay(Normalize(frames).frames), SpansOf(frames);
            && day.Some? && CoversAll(day.value, spans)
            && (arc.start < DAY && arc.start <= arc.end && CoversAll(arc, spans) ==>
                 day.value.end - day.value.start <= arc.end - arc.start)
  {
    AcceptedDay(frames);
    var spans := SpansOf(Normalize(frames).frames);
    AcceptedSpans(frames, DayOfSpans(spans));
    AcceptedSpans(frames, arc);
    BusinessDayCovers(spans);
    if arc.start < DAY && arc.start <= arc.end && CoversAll(arc, spans) {
      BusinessDayIsShortest(spans, arc);
    }
  }

  lemma {:induction false} NoSpans(frames: seq<Frame>)
    ensures SpansOf(frames) == [] <==> forall f | f in frames :: SpanOf(f).None?
  {
    if frames != [] {
      NoSpans(frames[1..]);
      assert frames == [frames[0]] + frames[1..];
    }
  }

  /** There is no business day exactly when no frame can be read, as when there is none. */
  lemma NoBusinessDay(frames: seq<Frame>)
    ensures BusinessDay(frames).None? <==> forall f | f in frames :: SpanOf(f).None?
  {
    NoSpans(frames);
    SortSorts(SpansOf(frames));
  }

  // ----- The single open/close pair ----------------------------------------------------------

  function First5(s: string): string {
    if |s| <= 5 then s else s[..5]
  }

  /** The frames of an open/close pair; an overnight pair is split at midnight. */
  function FramesFromOpenClose(openTime: string, closeTime: string): seq<Frame> {
    var open, close := FrameMinutes(First5(openTime)), FrameMinutes(First5(closeTime));
    if open.None? || close.None? || open.value >= DAY then []
    else if close.value > open.value then [Frame(FrameClock(open.value), FrameClock(close.value))]
    else
      var evening := Frame(FrameClock(open.value), "24:00");
      if close.value > 0 then [Frame("00:00", FrameClock(close.value)), evening] else [evening]
  }

  datatype OpenClose = OpenClose(openTime: string, closeTime: string)

  lemma BusinessDayBounds(frames: seq<Frame>)
    ensures BusinessDay(frames).Some? ==> BusinessDay(frames).value.start <= DAY
  {
    SortedInDay(frames);
    var spans := SortSpans(SpansOf(frames));
    if spans != [] {
      var i := BestGap(spans, |spans|).0;
      assert spans[Next(spans, i)] in spans;
    }
  }

  /** The pair cannot say "around the clock", so it stops a minute early. */
  function PairOf(day: Span): OpenClose
    requires day.start <= DAY
  {
    if day.end - day.start >= DAY then OpenClose("00:00:00", "23:59:00")
    else OpenClose(FrameClock(day.start) + ":00", FrameClock(day.end % DAY) + ":00")
  }

  function OpenCloseFromFrames(frames: seq<Frame>): Option<OpenClose> {
    var day := BusinessDay(frames);
    if day.None? then None
    else
      BusinessDayBounds(frames);
      Some(PairOf(day.value))
  }

  lemma MidnightClocks()
    ensures FrameClock(0) == "00:00" && FrameClock(DAY) == "24:00" && FrameClock(1439) == "23:59"
  {
    assert Digit(0) == '0' && Digit(2) == '2' && Digit(3) == '3' && Digit(4) == '4' && Digit(5) == '5' && Digit(9) == '9';
  }

  function PairString(open: nat, close: nat): OpenClose
    requires open <= DAY && close <= DAY
  {
    OpenClose(FrameClock(open) + ":00", FrameClock(close) + ":00")
  }

  lemma PairStringInjective(o: nat, c: nat, o': nat, c': nat)
    requires o <= DAY && c <= DAY && o' <= DAY && c' <= DAY
    ensures PairString(o, c) == PairString(o', c') <==> o == o' && c == c'
  {
    ClockRoundTrip(o);
    ClockRoundTrip(c);
    ClockRoundTrip(o');
    ClockRoundTrip(c');
  }

  /** The spans of the frames of a pair. */
  function PairSpans(open: nat, close: nat): seq<Span> {
    if close > open then [Span(open, close)]
    else if close > 0 then [Span(0, close), Span(open, DAY)]
    else [Span(open, DAY)]
  }

  lemma PairFrames(open: nat, close: nat)
    requires open < DAY && close <= DAY
    ensures SpansOf(FramesFromOpenClose(FrameClock(open) + ":00", FrameClock(close) + ":00")) == PairSpans(open, close)
  {
    var frames := FramesFromOpenClose(FrameClock(open) + ":00", FrameClock(close) + ":00");
    ClockRoundTrip(open);
    ClockRoundTrip(close);
    MidnightClocks();
    ClockRoundTrip(0);
    ClockRoundTrip(DAY);
    assert SpansOf(frames[|frames|..]) == [];
    if |frames| == 2 {
      assert SpansOf(frames[1..]) == [Span(open, DAY)];
    }
  }

  /** The business day of a pair: around the clock when the pair leaves no gap. */
  function PairDay(open: nat, close: nat): Span {
    if close > open && close - open < DAY then Span(open, close)
    else if close < open && close > 0 then Span(open, close + DAY)
    else if close < open then Span(open, DAY)
    else Span(0, DAY)
  }

  lemma DayOfPairSpans(open: nat, close: nat)
    requires open < DAY && close <= DAY
    ensures DayOfSpans(PairSpans(open, close)) == PairDay(open, close)
  {
    var spans := PairSpans(open, close);
    assert BestGap(spans, 0) == (0, -1);
    assert BestGap(spans, 1) == if GapAfter(spans, 0) > -1 then (0, GapAfter(spans, 0)) else (0, -1);
  }

  lemma PairBusinessDay(open: nat, close: nat)
    requires open < DAY && close <= DAY
    ensures BusinessDay(FramesFromOpenClose(FrameClock(open) + ":00", FrameClock(close) + ":00")) == Some(PairDay(open, close))
  {
    PairFrames(open, close);
    SortOfSorted(PairSpans(open, close));
    DayOfPairSpans(open, close);
  }

  lemma AroundTheClock()
    ensures OpenClose("00:00:00", "23:59:00") == PairString(0, 1439)
  {
    MidnightClocks();
    assert "00:00" + ":00" == "00:00:00" && "23:59" + ":00" == "23:59:00";
  }

  /** Where the pair of a pair's business day opens and closes. */
  function PairTimes(open: nat, close: nat): (t: (nat, nat))
    requires open < DAY && close <= DAY
    ensures t.0 < DAY && t.1 < DAY
    ensures t == (open, close) <==> open != close && close < DAY
  {
    var day := PairDay(open, close);
    if day.end - day.start >= DAY then (0, 1439) else (day.start, day.end % DAY)
  }

  lemma PairOfPairDay(open: nat, close: nat)
    requires open < DAY && close <= DAY
    ensures PairOf(PairDay(open, close)) == PairString(open, close) <==> open != close && close < DAY
  {
    AroundTheClock();
    var t := PairTimes(open, close);
    assert PairOf(PairDay(open, close)) == PairString(t.0, t.1);
    PairStringInjective(open, close, t.0, t.1);
  }

  /** A pair survives the way to frames and back exactly when it opens and closes at different times and closes before 24:00. */
  lemma OpenCloseRoundTrip(open: nat, close: nat)
    requires open < DAY && close <= DAY
    ensures OpenCloseFromFrames(FramesFromOpenClose(FrameClock(open) + ":00", FrameClock(close) + ":00"))
         == Some(PairString(open, close))
       <==> open != close && close < DAY
  {
    PairBusinessDay(open, close);
    PairOfPairDay(open, close);
  }
}
