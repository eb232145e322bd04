/** Operating hours in clock times and minutes of the day. */
module HoursMeaning {
  import opened Basics
  import opened OperatingHours

  // ----- Clock strings -----------------------------------------------------------------------

  /** The four digits of a time and the colon between them. */
  lemma ClockDigits(m: nat)
    requires m <= 1440
    ensures var s := FrameClock(m);
            && s[0] as int == 48 + m / 600 && s[1] as int == 48 + m / 60 % 10 && s[2] == ':'
            && s[3] as int == 48 + m % 60 / 10 && s[4] as int == 48 + m % 60 % 10
  {
  }

  lemma DigitOf(c: char)
    requires IsDigit(c)
    ensures Digit(DigitValue(c)) == c
  {
  }

  lemma SameClock(s: string, m: nat)
    requires |s| >= 5 && s[2] == ':' && IsDigit(s[0]) && IsDigit(s[1]) && IsDigit(s[3]) && IsDigit(s[4]) && m <= 1440
    requires DigitValue(s[0]) * 10 + DigitValue(s[1]) == m / 60 && DigitValue(s[3]) * 10 + DigitValue(s[4]) == m % 60
    ensures FrameClock(m) == s[..5]
  {
    DigitOf(s[0]);
    DigitOf(s[1]);
    DigitOf(s[3]);
    DigitOf(s[4]);
    assert s[..5] == [s[0], s[1], s[2], s[3], s[4]];
  }

  /** A string is the time `m` exactly when it is its clock string, with zero seconds or without. */
  lemma ClockExactly(s: string, m: nat)
    ensures FrameMinutes(s) == Some(m) <==> m <= 1440 && (s == FrameClock(m) || s == FrameClock(m) + ":00")
  {
    if m <= 1440 {
      ClockRoundTrip(m);
    }
    if FrameMinutes(s) == Some(m) {
      SameClock(s, m);
      assert s == if |s| == 5 then s[..5] else s[..5] + s[5..];
    }
  }

  // ----- Refusals ------------------------------------------------------------------------------

  /** A time that a frame may start at, and one that it may end at. */
  predicate Readable(f: Frame) {
    FrameMinutes(f.start).Some? && FrameMinutes(f.end).Some? && FrameMinutes(f.start).value < 1440
  }

  predicate Good(f: Frame) {
    Readable(f) && FrameMinutes(f.start).value < FrameMinutes(f.end).value
  }

  ghost predicate FirstBad(frames: seq<Frame>, from: nat, i: nat) {
    from <= i < |frames| && !Good(frames[i]) && forall j | from <= j < i :: Good(frames[j])
  }

  lemma ProblemOf(f: Frame, index: nat)
    ensures FrameProblem(f, index) == if Good(f) then None else Some(if Readable(f) then Backwards(index) else Invalid(index))
    ensures Good(f) <==> SpanOf(f).Some?
    ensures Good(f) ==> SpanOf(f) == Some(Span(FrameMinutes(f.start).value, FrameMinutes(f.end).value))
  {
  }

  lemma {:induction false} FirstProblemAt(frames: seq<Frame>, from: nat, i: nat)
    requires FirstBad(frames, from, i)
    ensures FirstProblem(frames, from) == FrameProblem(frames[i], i)
    decreases i - from
  {
    ProblemOf(frames[from], from);
    if from < i {
      FirstProblemAt(frames, from + 1, i);
    }
  }

  /** No frames and too many are refused as such; else the first frame that cannot be read, or ends no later than it starts, is named. */
  lemma RefusedExactly(frames: seq<Frame>, i: nat)
    ensures |frames| == 0 ==> Normalize(frames) == Refused(NoFrames)
    ensures |frames| > 6 ==> Normalize(frames) == Refused(TooMany)
    ensures FirstBad(frames, 0, i) && |frames| <= 6 ==>
              Normalize(frames) == Refused(if Readable(frames[i]) then Backwards(i) else Invalid(i))
    ensures 0 < |frames| <= 6 && (forall f | f in frames :: Good(f)) ==> Normalize(frames).Frames? || Normalize(frames) == Refused(Overlapping)
  {
    if FirstBad(frames, 0, i) {
      FirstProblemAt(frames, 0, i);
      ProblemOf(frames[i], i);
    }
    if forall f | f in frames :: Good(f) {
      forall k | 0 <= k < |frames| ensures SpanOf(frames[k]).Some? {
        assert frames[k] in frames;
        ProblemOf(frames[k], k);
      }
    }
  }

  lemma {:induction false} FramesAreClocks(spans: seq<Span>)
    requires forall s | s in spans :: s.start <= DAY && s.end <= DAY
    ensures forall i | 0 <= i < |spans| :: FramesOf(spans)[i] == Frame(FrameClock(spans[i].start), FrameClock(spans[i].end))
  {
    if spans != [] {
      assert spans[0] in spans;
      FramesAreClocks(spans[1..]);
    }
  }

  /** Accepted frames are written as hours and minutes alone, in the order of their starts. */
  lemma AcceptedAreClocks(frames: seq<Frame>, i: nat)
    requires Normalize(frames).Frames? && i < |Normalize(frames).frames|
    ensures var f := Normalize(frames).frames[i];
            Good(f) && f == Frame(FrameClock(FrameMinutes(f.start).value), FrameClock(FrameMinutes(f.end).value))
            && (i > 0 ==> FrameMinutes(Normalize(frames).frames[i - 1].end).GetOr(0) <= FrameMinutes(f.start).value)
  {
    var spans := SortSpans(SpansOf(frames));
    SortedInDay(frames);
    FramesAreClocks(spans);
    AcceptedIsNormalised(spans);
    ClockRoundTrip(spans[i].start);
    ClockRoundTrip(spans[i].end);
    if i > 0 {
      ClockRoundTrip(spans[i - 1].end);
    }
  }

  // ----- Which gap is left out -------------------------------------------------------------------

  /** The closed minutes between span `i` and the next, past midnight after the last. */
  function Closed(spans: seq<Span>, i: nat): int
    requires i < |spans|
  {
    if i + 1 < |spans| then spans[i + 1].start - spans[i].end else spans[0].start + 1440 - spans[i].end
  }

  lemma {:induction false} FirstBest(spans: seq<Span>, n: nat)
    requires 0 < n <= |spans| && forall i | 0 <= i < n :: GapAfter(spans, i) >= 0
    ensures var (i, gap) := BestGap(spans, n);
            i < n && gap == GapAfter(spans, i) && forall j | 0 <= j < i :: GapAfter(spans, j) < gap
  {
    if n > 1 {
      FirstBest(spans, n - 1);
    }
  }

  /** The business day leaves out the first of the longest gaps; with no gap at all it is the whole day. */
  lemma DayLeavesOutFirst(spans: seq<Span>, i: nat)
    requires Normalised(spans) && i < |spans|
    requires (forall j | 0 <= j < i :: Closed(spans, j) < Closed(spans, i)) && forall j | 0 <= j < |spans| :: Closed(spans, j) <= Closed(spans, i)
    ensures DayOfSpans(spans)
         == if Closed(spans, i) == 0 then Span(0, 1440)
            else if i + 1 < |spans| then Span(spans[i + 1].start, spans[i].end + 1440)
            else Span(spans[0].start, spans[i].end)
  {
    assert forall j | 0 <= j < |spans| :: Closed(spans, j) == GapAfter(spans, j);
    GapsNotNegative(spans);
    FirstBest(spans, |spans|);
    var (k, gap) := BestGap(spans, |spans|);
    assert GapAfter(spans, k) == gap;
    assert k == i;
    assert i > 0 ==> spans[0].end <= spans[i].start;
  }

  // ----- The single open/close pair ----------------------------------------------------------------

  /** Some frame is open at the minute. */
  ghost predicate OpenAt(frames: seq<Frame>, t: nat) {
    exists f :: f in frames && SpanOf(f).Some? && SpanOf(f).value.start <= t < SpanOf(f).value.end
  }

  /** The frame is open from `a` up to `b`. */
  predicate Opens(f: Frame, a: nat, b: nat) {
    FrameMinutes(f.start) == Some(a) && FrameMinutes(f.end) == Some(b) && a < b
  }

  lemma OneFrame(f: Frame, a: nat, b: nat, t: nat)
    requires Opens(f, a, b)
    ensures OpenAt([f], t) <==> a <= t < b
  {
    assert f in [f];
  }

  lemma TwoFrames(f: Frame, a: nat, b: nat, g: Frame, c: nat, d: nat, t: nat)
    requires Opens(f, a, b) && Opens(g, c, d)
    ensures OpenAt([f, g], t) <==> a <= t < b || c <= t < d
  {
    assert f in [f, g] && g in [f, g];
  }

  /** Open from the first time to the second, past midnight if that is no later. */
  predicate Within(open: nat, close: nat, t: nat) {
    if close > open then open <= t < close else open <= t || t < close
  }

  /** The frames of a pair are open between its two times; a pair that cannot be read has no frames. */
  lemma PairOpenAt(openTime: string, closeTime: string, t: nat)
    requires t < 1440
    ensures OpenAt(FramesFromOpenClose(openTime, closeTime), t)
       <==> && FrameMinutes(First5(openTime)).Some? && FrameMinutes(First5(closeTime)).Some?
            && FrameMinutes(First5(openTime)).value < 1440
            && Within(FrameMinutes(First5(openTime)).value, FrameMinutes(First5(closeTime)).value, t)
  {
    var open, close := FrameMinutes(First5(openTime)), FrameMinutes(First5(closeTime));
    if open.Some? && close.Some? && open.value < 1440 {
      ClockRoundTrip(open.value);
      ClockRoundTrip(close.value);
      var evening := Frame(FrameClock(open.value), "24:00");
      if close.value > open.value {
        OneFrame(Frame(FrameClock(open.value), FrameClock(close.value)), open.value, close.value, t);
      } else if close.value > 0 {
        TwoFrames(Frame("00:00", FrameClock(close.value)), 0, close.value, evening, open.value, 1440, t);
      } else {
        OneFrame(evening, open.value, 1440, t);
      }
    }
  }

  lemma TimesOfPair(open: nat, close: nat)
    requires open < 1440 && close <= 1440
    ensures PairTimes(open, close)
         == if open == close || (open == 0 && close == 1440) then (0, 1439) else (open, if close == 1440 then 0 else close)
  {
  }

  /** What a pair comes back as: around the clock stops a minute early, and closing at 24:00 is closing at midnight. */
  lemma PairComesBack(open: nat, close: nat)
    requires open < 1440 && close <= 1440
    ensures OpenCloseFromFrames(FramesFromOpenClose(FrameClock(open) + ":00", FrameClock(close) + ":00"))
         == Some(if open == close || (open == 0 && close == 1440) then OpenClose("00:00:00", "23:59:00")
                 else OpenClose(FrameClock(open) + ":00", FrameClock(if close == 1440 then 0 else close) + ":00"))
  {
    PairBusinessDay(open, close);
    AroundTheClock();
    TimesOfPair(open, close);
    var t := PairTimes(open, close);
    assert PairOf(PairDay(open, close)) == PairString(t.0, t.1);
  }
}
