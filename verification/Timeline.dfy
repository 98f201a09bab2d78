/**
 SegmentTimeline accounting (section 5.3.9.6 of ISO/IEC 23009-1): the duration of new content over
 successive refreshes of a live period, and the run-length sum of a period's duration.
 */
module Timeline {

  const UINT32_MOD: nat := 0x1_0000_0000

  /** One S element: its duration in timescale units, and how often it repeats after the first. */
  datatype Run = Run(duration: nat, repeatCount: nat)

  /** ComputeFragmentDuration, in seconds */
  function FragmentDuration(duration: nat, timeScale: nat): real
  {
    if duration != 0 && timeScale != 0 then duration as real / timeScale as real else 2.0
  }

  function RunMs(r: Run, timeScale: nat): real { FragmentDuration(r.duration, timeScale) * 1000.0 }

  // GetRepeatCount() + 1 in uint32_t
  function SegmentCount(r: Run): nat { (r.repeatCount + 1) % UINT32_MOD }

  function Times(ms: real, count: nat): seq<real> { seq(count, _ => ms) }

  lemma TimesNext(ms: real, count: nat)
    ensures Times(ms, count + 1) == Times(ms, count) + [ms] && Times(ms, 0) == []
  {
  }

  /** The duration of every segment of the timeline, in order. */
  function Segments(runs: seq<Run>, timeScale: nat): seq<real>
  {
    if runs == [] then []
    else
      var last := runs[|runs| - 1];
      Segments(runs[..|runs| - 1], timeScale) + Times(RunMs(last, timeScale), SegmentCount(last))
  }

  /** The durations of the segments numbered above the mark, the first being numbered `start`. */
  function NewContent(durations: seq<real>, start: nat, mark: nat): real
  {
    if durations == [] then 0.0
    else
      var n := |durations| - 1;
      NewContent(durations[..n], start, mark) + (if start + n > mark then durations[n] else 0.0)
  }

  function NewMark(count: nat, start: nat, mark: nat): nat
  {
    if count > 0 && start + count - 1 > mark then start + count - 1 else mark
  }

  lemma OneMoreSegment(durations: seq<real>, d: real, start: nat, mark: nat)
    ensures NewContent(durations + [d], start, mark) ==
            NewContent(durations, start, mark) + (if start + |durations| > mark then d else 0.0)
  {
    assert (durations + [d])[..|durations|] == durations;
  }

  /** The timeline loop of GetPeriodNewContentDurationMs, for a period without an explicit duration. */
  method PeriodNewContentMs(runs: seq<Run>, timeScale: nat, startNumber: nat, curEndNumber: nat)
    returns (durationMs: real, newEndNumber: nat)
    ensures durationMs == NewContent(Segments(runs, timeScale), startNumber, curEndNumber)
    ensures newEndNumber == NewMark(|Segments(runs, timeScale)|, startNumber, curEndNumber)
  {
    durationMs, newEndNumber := 0.0, curEndNumber;
    var number := startNumber;
    ghost var done: seq<real> := [];
    var k := 0;
    assert runs[..0] == [];
    while k < |runs|
      invariant 0 <= k <= |runs| && done == Segments(runs[..k], timeScale) && number == startNumber + |done|
      invariant durationMs == NewContent(done, startNumber, curEndNumber)
      invariant newEndNumber == NewMark(|done|, startNumber, curEndNumber)
    {
      var segmentCount, ms := SegmentCount(runs[k]), RunMs(runs[k], timeScale);
      var i := 0;
      ghost var before := done;
      while i < segmentCount
        invariant 0 <= i <= segmentCount && done == before + Times(ms, i) && number == startNumber + |done|
        invariant durationMs == NewContent(done, startNumber, curEndNumber)
        invariant newEndNumber == NewMark(|done|, startNumber, curEndNumber)
      {
        OneMoreSegment(done, ms, startNumber, curEndNumber);
        TimesNext(ms, i);
        assert before + (Times(ms, i) + [ms]) == before + Times(ms, i) + [ms];
        if number > newEndNumber {
          durationMs := durationMs + ms;
          newEndNumber := number;
        }
        done := done + [ms];
        number := number + 1;
        i := i + 1;
      }
      assert runs[..k + 1][..k] == runs[..k];
      k := k + 1;
    }
    assert runs[..k] == runs;
  }

  // ---------------------------------------------------------------- the run-length sum

  function RunLengthSum(runs: seq<Run>, timeScale: nat): real
  {
    if runs == [] then 0.0
    else
      var last := runs[|runs| - 1];
      RunLengthSum(runs[..|runs| - 1], timeScale) + SegmentCount(last) as real * RunMs(last, timeScale)
  }

  /** A double: dividing a positive amount by a timescale of zero gives an infinity. */
  datatype Double = Finite(value: real) | MinusInfinity

  /** The timeline branch of aamp_GetPeriodDuration; a presentation time offset past the start is clipped off. */
  method PeriodDurationMs(runs: seq<Run>, timeScale: nat, timelineStartTime: nat, presentationTimeOffset: nat)
    returns (r: Double)
    ensures r.MinusInfinity? <==> runs != [] && timeScale == 0 && presentationTimeOffset > timelineStartTime
    ensures r.Finite? && (runs == [] || presentationTimeOffset <= timelineStartTime) ==> r.value == RunLengthSum(runs, timeScale)
    ensures r.Finite? && runs != [] && presentationTimeOffset > timelineStartTime ==>
              r.value == RunLengthSum(runs, timeScale)
                         - (presentationTimeOffset - timelineStartTime) as real * 1000.0 / timeScale as real
  {
    var durationMs := 0.0;
    if runs != [] {
      var k := 0;
      while k < |runs|
        invariant 0 <= k <= |runs| && durationMs == RunLengthSum(runs[..k], timeScale)
      {
        assert runs[..k + 1][..k] == runs[..k];
        durationMs := durationMs + SegmentCount(runs[k]) as real * RunMs(runs[k], timeScale);
        k := k + 1;
      }
      assert runs[..k] == runs;
      if presentationTimeOffset > timelineStartTime {
        if timeScale == 0 { return MinusInfinity; }
        durationMs := durationMs - (presentationTimeOffset - timelineStartTime) as real * 1000.0 / timeScale as real;
      }
    }
    r := Finite(durationMs);
  }

  ghost function RunTicks(r: Run): nat { (r.repeatCount + 1) * r.duration }

  /** How long the timeline is, in timescale units: each S element counts once and once more per repetition. */
  ghost function Ticks(runs: seq<Run>): nat
  {
    if runs == [] then 0 else Ticks(runs[..|runs| - 1]) + RunTicks(runs[|runs| - 1])
  }

  /** ms milliseconds are that many ticks of the timescale. */
  ghost predicate SameTime(ms: real, ticks: nat, timeScale: nat) { ms * timeScale as real == ticks as real * 1000.0 }

  /** For positive durations and no wrapped count, the run-length sum is the number of ticks in milliseconds. */
  lemma {:induction false} SumInTicks(runs: seq<Run>, timeScale: nat)
    requires timeScale > 0 && forall i :: 0 <= i < |runs| ==> runs[i].duration > 0 && runs[i].repeatCount + 1 < 0x1_0000_0000
    ensures SameTime(RunLengthSum(runs, timeScale), Ticks(runs), timeScale)
  {
    if runs != [] {
      hide RunMs, SegmentCount, RunTicks, SameTime;
      var rest, last := runs[..|runs| - 1], runs[|runs| - 1];
      SumInTicks(rest, timeScale);
      RunInTicks(last, timeScale);
      OneMoreRun(RunLengthSum(rest, timeScale), SegmentCount(last) as real * RunMs(last, timeScale), timeScale, Ticks(rest), RunTicks(last));
    }
  }

  lemma OneMoreRun(x: real, y: real, timeScale: nat, m: nat, n: nat)
    requires SameTime(x, m, timeScale) && SameTime(y, n, timeScale)
    ensures SameTime(x + y, m + n, timeScale)
  {
    assert (x + y) * timeScale as real == x * timeScale as real + y * timeScale as real;
  }

  lemma RunInTicks(r: Run, timeScale: nat)
    requires timeScale > 0 && r.duration > 0 && r.repeatCount + 1 < 0x1_0000_0000
    ensures SameTime(SegmentCount(r) as real * RunMs(r, timeScale), RunTicks(r), timeScale)
  {
    var count, d, scale := SegmentCount(r) as real, r.duration as real, timeScale as real;
    assert SegmentCount(r) == r.repeatCount + 1;
    assert RunMs(r, timeScale) == d / scale * 1000.0;
    ScaleCancels(count, d, scale);
    CountTimes(r.repeatCount + 1, r.duration);
  }

  lemma ScaleCancels(count: real, d: real, scale: real)
    requires scale > 0.0
    ensures count * (d / scale * 1000.0) * scale == count * d * 1000.0
  {
    var q := d / scale;
    assert q * scale == d;
    assert count * (q * 1000.0) * scale == count * (q * scale) * 1000.0;
  }

  lemma CountTimes(n: nat, d: nat)
    ensures n as real * d as real == (n * d) as real
  {
  }

  /** An open-ended run (r="-1", so 0xffffffff as uint32_t) counts as no segment at all. */
  lemma OpenEndedRunIsNotCounted(runs: seq<Run>, r: Run, timeScale: nat)
    requires r.repeatCount == 0xffff_ffff
    ensures RunLengthSum(runs + [r], timeScale) == RunLengthSum(runs, timeScale)
    ensures Segments(runs + [r], timeScale) == Segments(runs, timeScale)
  {
    assert (runs + [r])[..|runs|] == runs;
    assert SegmentCount(r) == 0;
  }

  /** A missing duration or timescale counts as two seconds per segment. */
  lemma UnknownIsTwoSeconds(r: Run, timeScale: nat)
    requires (r.duration == 0 || timeScale == 0) && r.repeatCount + 1 < 0x1_0000_0000
    ensures RunLengthSum([r], timeScale) == (r.repeatCount + 1) as real * 2000.0
  {
    assert [r][..0] == [];
    assert RunLengthSum([r][..0], timeScale) == 0.0;
  }

  lemma OneMoreTime(ms: real, count: nat)
    ensures (count + 1) as real * ms == count as real * ms + ms
  {
  }

  lemma {:induction false} AllNewRun(durations: seq<real>, ms: real, count: nat, start: nat, mark: nat)
    requires mark < start
    ensures NewContent(durations + Times(ms, count), start, mark) == NewContent(durations, start, mark) + count as real * ms
  {
    hide NewContent, Times;
    if count == 0 {
      TimesNext(ms, 0);
      assert durations + [] == durations;
    } else {
      AllNewRun(durations, ms, count - 1, start, mark);
      TimesNext(ms, count - 1);
      assert durations + (Times(ms, count - 1) + [ms]) == durations + Times(ms, count - 1) + [ms];
      OneMoreSegment(durations + Times(ms, count - 1), ms, start, mark);
      OneMoreTime(ms, count - 1);
    }
  }

  /** With the mark below the start number one call returns the run-length sum of the period's duration. */
  lemma {:induction false} FirstCallIsRunLengthSum(runs: seq<Run>, timeScale: nat, start: nat, mark: nat)
    requires mark < start
    ensures NewContent(Segments(runs, timeScale), start, mark) == RunLengthSum(runs, timeScale)
  {
    hide RunMs, SegmentCount, Times;
    if runs != [] {
      var last := runs[|runs| - 1];
      FirstCallIsRunLengthSum(runs[..|runs| - 1], timeScale, start, mark);
      AllNewRun(Segments(runs[..|runs| - 1], timeScale), RunMs(last, timeScale), SegmentCount(last), start, mark);
    }
  }

  // ---------------------------------------------------------------- successive refreshes

  /** One refresh: the first segment number and every segment's duration. */
  datatype Refresh = Refresh(start: nat, durations: seq<real>)

  predicate InRefresh(r: Refresh, n: nat) { r.start <= n < r.start + |r.durations| }

  ghost predicate Listed(refreshes: seq<Refresh>, n: nat) { exists j :: 0 <= j < |refreshes| && InRefresh(refreshes[j], n) }

  /** The mark after the refreshes. */
  function Mark(refreshes: seq<Refresh>, mark: nat): nat
  {
    if refreshes == [] then mark
    else
      var last := refreshes[|refreshes| - 1];
      NewMark(|last.durations|, last.start, Mark(refreshes[..|refreshes| - 1], mark))
  }

  /** What the calls return for the refreshes, added up. */
  function Returned(refreshes: seq<Refresh>, mark: nat): real
  {
    if refreshes == [] then 0.0
    else
      var last := refreshes[|refreshes| - 1];
      Returned(refreshes[..|refreshes| - 1], mark)
        + NewContent(last.durations, last.start, Mark(refreshes[..|refreshes| - 1], mark))
  }

  ghost predicate StartsNondecreasing(refreshes: seq<Refresh>)
  {
    forall i, j :: 0 <= i < j < |refreshes| ==> refreshes[i].start <= refreshes[j].start
  }

  /** A segment number has the same duration in every refresh that lists it. */
  ghost predicate Stable(refreshes: seq<Refresh>, d: nat -> real)
  {
    forall j, i :: 0 <= j < |refreshes| && 0 <= i < |refreshes[j].durations| ==>
      refreshes[j].durations[i] == d(refreshes[j].start + i)
  }

  /** The sum of f over the numbers in (lo, hi]. */
  ghost function Sum(f: nat -> real, lo: nat, hi: nat): real
  {
    if hi <= lo then 0.0 else Sum(f, lo, hi - 1) + f(hi)
  }

  lemma {:induction false} SumAdds(f: nat -> real, g: nat -> real, h: nat -> real, lo: nat, hi: nat)
    requires forall n: nat :: lo < n <= hi ==> f(n) == g(n) + h(n)
    ensures Sum(f, lo, hi) == Sum(g, lo, hi) + Sum(h, lo, hi)
  {
    if lo < hi { SumAdds(f, g, h, lo, hi - 1); }
  }

  lemma {:induction false} SumOfPoint(f: nat -> real, p: nat, lo: nat, hi: nat)
    requires forall n: nat :: lo < n <= hi && n != p ==> f(n) == 0.0
    ensures Sum(f, lo, hi) == if lo < p <= hi then f(p) else 0.0
  {
    if lo < hi { SumOfPoint(f, p, lo, hi - 1); }
  }

  /** d(n) for the segments of one refresh above the mark. */
  ghost function AboveMark(r: Refresh, d: nat -> real, mark: nat): nat -> real
  {
    (n: nat) => if InRefresh(r, n) && n > mark then d(n) else 0.0
  }

  ghost function OnlyAt(p: nat, v: real): nat -> real { (n: nat) => if n == p then v else 0.0 }

  /** New content is the sum of d over the refresh's numbers above the mark. */
  lemma {:induction false} NewContentIsSum(r: Refresh, d: nat -> real, mark: nat, lo: nat, hi: nat)
    requires lo <= mark && r.start + |r.durations| <= hi + 1
    requires forall i :: 0 <= i < |r.durations| ==> r.durations[i] == d(r.start + i)
    ensures NewContent(r.durations, r.start, mark) == Sum(AboveMark(r, d, mark), lo, hi)
    decreases |r.durations|
  {
    if r.durations == [] {
      var f := AboveMark(r, d, mark);
      forall n: nat | lo < n <= hi ensures f(n) == 0.0 { assert !InRefresh(r, n); }
      SumOfPoint(f, 0, lo, hi);
    } else {
      var n := |r.durations| - 1;
      var p, shorter := r.start + n, Refresh(r.start, r.durations[..n]);
      NewContentIsSum(shorter, d, mark, lo, hi);
      var f, g, last := AboveMark(r, d, mark), AboveMark(shorter, d, mark), OnlyAt(p, if p > mark then d(p) else 0.0);
      forall k: nat | lo < k <= hi ensures f(k) == g(k) + last(k) {
        assert InRefresh(r, k) <==> InRefresh(shorter, k) || k == p;
      }
      SumAdds(f, g, last, lo, hi);
      forall k: nat | lo < k <= hi && k != p ensures last(k) == 0.0 {}
      SumOfPoint(last, p, lo, hi);
    }
  }

  /** d(n) for every number some refresh lists. */
  ghost function Counted(refreshes: seq<Refresh>, d: nat -> real): nat -> real
  {
    (n: nat) => if Listed(refreshes, n) then d(n) else 0.0
  }

  /** The mark is the initial one or the last number of some refresh, and no listed number is above it. */
  lemma {:induction false} MarkIsHighest(refreshes: seq<Refresh>, mark: nat)
    ensures mark <= Mark(refreshes, mark)
    ensures forall n: nat :: Listed(refreshes, n) ==> n <= Mark(refreshes, mark)
    ensures Mark(refreshes, mark) != mark ==>
              exists j :: 0 <= j < |refreshes| && |refreshes[j].durations| > 0 &&
                refreshes[j].start + |refreshes[j].durations| - 1 == Mark(refreshes, mark)
  {
    if refreshes != [] {
      var before := refreshes[..|refreshes| - 1];
      MarkIsHighest(before, mark);
      forall n: nat | Listed(refreshes, n) ensures n <= Mark(refreshes, mark) {
        var j :| 0 <= j < |refreshes| && InRefresh(refreshes[j], n);
        if j < |before| { assert InRefresh(before[j], n); assert Listed(before, n); }
      }
      if Mark(refreshes, mark) == Mark(before, mark) != mark {
        var j :| 0 <= j < |before| && |before[j].durations| > 0 &&
          before[j].start + |before[j].durations| - 1 == Mark(before, mark);
        assert refreshes[j] == before[j];
      }
    }
  }

  // ---------------------------------------------------------------- which segments are counted

  /** Some refresh lists n above the mark that the refreshes before it left: there the call counts it. */
  ghost predicate Taken(refreshes: seq<Refresh>, mark: nat, n: nat)
  {
    exists j :: 0 <= j < |refreshes| && InRefresh(refreshes[j], n) && n > Mark(refreshes[..j], mark)
  }

  /** d(n) for every number that some call counts. */
  ghost function TakenOnly(refreshes: seq<Refresh>, d: nat -> real, mark: nat): nat -> real
  {
    (n: nat) => if Taken(refreshes, mark, n) then d(n) else 0.0
  }

  /** d(n) for every listed number that no call counts. */
  ghost function Missed(refreshes: seq<Refresh>, d: nat -> real, mark: nat): nat -> real
  {
    (n: nat) => if Listed(refreshes, n) && !Taken(refreshes, mark, n) then d(n) else 0.0
  }

  /**
   Whenever a refresh lists a number between the initial mark and the mark of that moment, an
   earlier refresh has listed it: the window never moves back over a gap.
   */
  ghost predicate NoGapRevisited(refreshes: seq<Refresh>, mark: nat)
  {
    forall j, n: nat ::
      0 <= j < |refreshes| && InRefresh(refreshes[j], n) && mark < n <= Mark(refreshes[..j], mark) ==> Listed(refreshes[..j], n)
  }

  /** hi bounds the numbers. */
  ghost predicate Below(refreshes: seq<Refresh>, hi: nat)
  {
    forall j :: 0 <= j < |refreshes| ==> refreshes[j].start + |refreshes[j].durations| <= hi + 1
  }

  /** Every segment of the refreshes lasts for some time. */
  ghost predicate PositiveDurations(refreshes: seq<Refresh>)
  {
    forall j, i :: 0 <= j < |refreshes| && 0 <= i < |refreshes[j].durations| ==> refreshes[j].durations[i] > 0.0
  }

  /** PositiveDurations holds of every timeline: a duration or timescale of zero counts as two seconds. */
  lemma {:induction false} SegmentsArePositive(runs: seq<Run>, timeScale: nat)
    ensures forall i :: 0 <= i < |Segments(runs, timeScale)| ==> Segments(runs, timeScale)[i] > 0.0
  {
    if runs != [] {
      SegmentsArePositive(runs[..|runs| - 1], timeScale);
      RunIsPositive(runs[|runs| - 1], timeScale);
    }
  }

  lemma RunIsPositive(r: Run, timeScale: nat)
    ensures RunMs(r, timeScale) > 0.0
  {
    if r.duration != 0 && timeScale != 0 {
      assert r.duration as real / timeScale as real > 0.0;
    }
  }

  lemma TakenByLast(before: seq<Refresh>, r: Refresh, mark: nat, n: nat)
    ensures Taken(before + [r], mark, n) <==> Taken(before, mark, n) || (InRefresh(r, n) && n > Mark(before, mark))
  {
    hide Mark, InRefresh;
    var all := before + [r];
    assert all[..|before|] == before && all[|before|] == r;
    forall j | 0 <= j < |before| ensures all[j] == before[j] && all[..j] == before[..j] {}
    if Taken(before, mark, n) {
      var j :| 0 <= j < |before| && InRefresh(before[j], n) && n > Mark(before[..j], mark);
      assert InRefresh(all[j], n) && n > Mark(all[..j], mark);
    }
  }

  lemma TakenIsListed(refreshes: seq<Refresh>, mark: nat, n: nat)
    requires Taken(refreshes, mark, n)
    ensures Listed(refreshes, n)
  {
  }

  lemma TakenOnce(before: seq<Refresh>, r: Refresh, d: nat -> real, mark: nat, n: nat)
    ensures TakenOnly(before + [r], d, mark)(n) == TakenOnly(before, d, mark)(n) + AboveMark(r, d, Mark(before, mark))(n)
  {
    TakenByLast(before, r, mark, n);
    if Taken(before, mark, n) {
      TakenIsListed(before, mark, n);
      MarkIsHighest(before, mark);
    }
  }

  /** What the calls return adds up to the numbers they count, each once, whatever the start numbers do. */
  lemma {:induction false} ReturnedIsTaken(refreshes: seq<Refresh>, d: nat -> real, mark: nat, hi: nat)
    requires Stable(refreshes, d) && Below(refreshes, hi)
    ensures Returned(refreshes, mark) == Sum(TakenOnly(refreshes, d, mark), mark, hi)
  {
    hide NewContent, Sum, Mark, Returned, AboveMark, TakenOnly;
    ReturnedLast(refreshes, mark);
    if refreshes == [] {
      NothingTaken(d, mark, hi);
    } else {
      var before, r := refreshes[..|refreshes| - 1], refreshes[|refreshes| - 1];
      assert before + [r] == refreshes;
      ReturnedIsTaken(before, d, mark, hi);
      MarkIsHighest(before, mark);
      NewContentIsSum(r, d, Mark(before, mark), mark, hi);
      var f, g, h := TakenOnly(refreshes, d, mark), TakenOnly(before, d, mark), AboveMark(r, d, Mark(before, mark));
      forall n: nat | mark < n <= hi ensures f(n) == g(n) + h(n) {
        TakenOnce(before, r, d, mark, n);
      }
      SumAdds(f, g, h, mark, hi);
    }
  }

  lemma NothingTaken(d: nat -> real, mark: nat, hi: nat)
    ensures Sum(TakenOnly([], d, mark), mark, hi) == 0.0
  {
    var f := TakenOnly([], d, mark);
    forall n: nat | mark < n <= hi ensures f(n) == 0.0 { assert !Taken([], mark, n); }
    SumOfPoint(f, 0, mark, hi);
  }

  /** For any refreshes: what is returned falls short of all listed numbers by exactly the missed ones. */
  lemma ShortfallIsMissed(refreshes: seq<Refresh>, d: nat -> real, mark: nat, hi: nat)
    requires Stable(refreshes, d) && Below(refreshes, hi)
    ensures Returned(refreshes, mark) + Sum(Missed(refreshes, d, mark), mark, hi) == Sum(Counted(refreshes, d), mark, hi)
  {
    hide Sum, Returned, Taken, Listed;
    ReturnedIsTaken(refreshes, d, mark, hi);
    var f, g, h := Counted(refreshes, d), TakenOnly(refreshes, d, mark), Missed(refreshes, d, mark);
    forall n: nat | mark < n <= hi ensures f(n) == g(n) + h(n) {
      if Taken(refreshes, mark, n) { TakenIsListed(refreshes, mark, n); }
    }
    SumAdds(f, g, h, mark, hi);
  }

  /** The first refresh that lists n. */
  lemma {:induction false} FirstListing(refreshes: seq<Refresh>, n: nat) returns (j: nat)
    requires Listed(refreshes, n)
    ensures j < |refreshes| && InRefresh(refreshes[j], n) && !Listed(refreshes[..j], n)
  {
    var last := |refreshes| - 1;
    if Listed(refreshes[..last], n) {
      j := FirstListing(refreshes[..last], n);
      assert refreshes[..last][..j] == refreshes[..j];
    } else {
      j := last;
      assert refreshes == refreshes[..last] + [refreshes[last]];
      ListedByLast(refreshes[..last], refreshes[last], n);
    }
  }

  lemma {:induction false} MarkGrows(refreshes: seq<Refresh>, mark: nat, j: nat, k: nat)
    requires j <= k <= |refreshes|
    ensures Mark(refreshes[..j], mark) <= Mark(refreshes[..k], mark)
    decreases k
  {
    if j < k {
      MarkGrows(refreshes, mark, j, k - 1);
      assert refreshes[..k][..k - 1] == refreshes[..k - 1];
    }
  }

  /** No number above the initial mark is missed exactly if no gap is revisited. */
  lemma NothingMissedIff(refreshes: seq<Refresh>, mark: nat)
    ensures NoGapRevisited(refreshes, mark) <==>
            forall n: nat :: n > mark && Listed(refreshes, n) ==> Taken(refreshes, mark, n)
  {
    hide Mark, Listed, InRefresh;
    if NoGapRevisited(refreshes, mark) {
      forall n: nat | n > mark && Listed(refreshes, n) ensures Taken(refreshes, mark, n) {
        var j := FirstListing(refreshes, n);
        assert InRefresh(refreshes[j], n) && !Listed(refreshes[..j], n);
      }
    }
    if forall n: nat :: n > mark && Listed(refreshes, n) ==> Taken(refreshes, mark, n) {
      forall j, n: nat | 0 <= j < |refreshes| && InRefresh(refreshes[j], n) && mark < n <= Mark(refreshes[..j], mark)
        ensures Listed(refreshes[..j], n)
      {
        TakenEarlier(refreshes, mark, j, n);
      }
    }
  }

  lemma TakenEarlier(refreshes: seq<Refresh>, mark: nat, j: nat, n: nat)
    requires j < |refreshes| && InRefresh(refreshes[j], n) && n <= Mark(refreshes[..j], mark)
    requires n > mark && (Listed(refreshes, n) ==> Taken(refreshes, mark, n))
    ensures Listed(refreshes[..j], n)
  {
    hide Mark;
    var k :| 0 <= k < |refreshes| && InRefresh(refreshes[k], n) && n > Mark(refreshes[..k], mark);
    if k >= j { MarkGrows(refreshes, mark, j, k); }
    assert InRefresh(refreshes[..j][k], n);
  }

  lemma {:induction false} SumIsNonnegative(f: nat -> real, lo: nat, hi: nat)
    requires forall n: nat :: lo < n <= hi ==> f(n) >= 0.0
    ensures Sum(f, lo, hi) >= 0.0
  {
    if lo < hi { SumIsNonnegative(f, lo, hi - 1); }
  }

  /** A sum of nonnegative terms vanishes exactly if every term does. */
  lemma {:induction false} SumVanishesIff(f: nat -> real, lo: nat, hi: nat)
    requires forall n: nat :: lo < n <= hi ==> f(n) >= 0.0
    ensures Sum(f, lo, hi) == 0.0 <==> forall n: nat :: lo < n <= hi ==> f(n) == 0.0
  {
    if lo < hi {
      SumVanishesIff(f, lo, hi - 1);
      SumIsNonnegative(f, lo, hi - 1);
    }
  }

  lemma ListedIsPositive(refreshes: seq<Refresh>, d: nat -> real, hi: nat, n: nat)
    requires Stable(refreshes, d) && PositiveDurations(refreshes) && Below(refreshes, hi) && Listed(refreshes, n)
    ensures d(n) > 0.0 && n <= hi
  {
    var j :| 0 <= j < |refreshes| && InRefresh(refreshes[j], n);
    assert refreshes[j].durations[n - refreshes[j].start] == d(n);
  }

  /**
   Across any refreshes with stable durations, the returned durations add up to every segment number
   above the initial mark that was ever listed, each counted exactly once, if and only if no refresh
   goes back to a number below the mark of that moment that no earlier refresh listed.
   */
  lemma EachSegmentCountedOnceIff(refreshes: seq<Refresh>, d: nat -> real, mark: nat, hi: nat)
    requires Stable(refreshes, d) && PositiveDurations(refreshes) && Below(refreshes, hi)
    ensures Returned(refreshes, mark) == Sum(Counted(refreshes, d), mark, hi) <==> NoGapRevisited(refreshes, mark)
  {
    hide Sum, Returned, Taken, Listed, NoGapRevisited, Stable, Below, PositiveDurations;
    ShortfallIsMissed(refreshes, d, mark, hi);
    NothingMissedIff(refreshes, mark);
    var missed := Missed(refreshes, d, mark);
    forall n: nat | n > mark
      ensures Listed(refreshes, n) && !Taken(refreshes, mark, n) <==> n <= hi && missed(n) != 0.0
      ensures missed(n) >= 0.0
    {
      if Listed(refreshes, n) { ListedIsPositive(refreshes, d, hi, n); }
    }
    SumVanishesIff(missed, mark, hi);
  }

  /** With start numbers that never decrease, no gap can be revisited. */
  lemma StartsLeaveNoGap(refreshes: seq<Refresh>, mark: nat)
    requires StartsNondecreasing(refreshes)
    ensures NoGapRevisited(refreshes, mark)
  {
    hide Mark;
    forall j, n: nat | 0 <= j < |refreshes| && InRefresh(refreshes[j], n) && mark < n <= Mark(refreshes[..j], mark)
      ensures Listed(refreshes[..j], n)
    {
      var before := refreshes[..j];
      MarkIsHighest(before, mark);
      var i :| 0 <= i < |before| && |before[i].durations| > 0 &&
        before[i].start + |before[i].durations| - 1 == Mark(before, mark);
      assert refreshes[i].start <= refreshes[j].start;
      assert InRefresh(before[i], n);
    }
  }

  /** So then each listed segment above the initial mark is counted exactly once, whatever the durations. */
  lemma EachSegmentCountedOnce(refreshes: seq<Refresh>, d: nat -> real, mark: nat, hi: nat)
    requires StartsNondecreasing(refreshes) && Stable(refreshes, d) && Below(refreshes, hi)
    ensures Returned(refreshes, mark) == Sum(Counted(refreshes, d), mark, hi)
  {
    hide Sum, Returned, Taken, Listed, NoGapRevisited;
    StartsLeaveNoGap(refreshes, mark);
    NothingMissedIff(refreshes, mark);
    ShortfallIsMissed(refreshes, d, mark, hi);
    SumOfPoint(Missed(refreshes, d, mark), 0, mark, hi);
  }

  lemma ReturnedLast(refreshes: seq<Refresh>, mark: nat)
    ensures refreshes == [] ==> Returned(refreshes, mark) == 0.0
    ensures refreshes != [] ==>
              var before, r := refreshes[..|refreshes| - 1], refreshes[|refreshes| - 1];
              Returned(refreshes, mark) == Returned(before, mark) + NewContent(r.durations, r.start, Mark(before, mark))
  {
  }

  lemma ListedByLast(before: seq<Refresh>, r: Refresh, n: nat)
    ensures Listed(before + [r], n) <==> Listed(before, n) || InRefresh(r, n)
  {
    if Listed(before, n) {
      var j :| 0 <= j < |before| && InRefresh(before[j], n);
      assert InRefresh((before + [r])[j], n);
    }
    assert (before + [r])[|before|] == r;
  }

  /** A window that moves back over a gap: the number in the gap is listed but not counted. */
  lemma MovingBackIsNotCounted(d: real, mark: nat)
    requires d > 0.0
    ensures var refreshes := [Refresh(mark + 2, [d]), Refresh(mark + 1, [d])];
            && Returned(refreshes, mark) == d && Listed(refreshes, mark + 1) && Listed(refreshes, mark + 2)
            && !NoGapRevisited(refreshes, mark)
  {
    var first, second := Refresh(mark + 2, [d]), Refresh(mark + 1, [d]);
    var refreshes := [first, second];
    assert refreshes[..1] == [first] && [first][..0] == [];
    SingleSegment(d, mark + 2, mark);
    SingleSegment(d, mark + 1, mark + 2);
    assert Mark([first], mark) == mark + 2;
    assert Returned([first], mark) == d;
    assert InRefresh(refreshes[0], mark + 2) && InRefresh(refreshes[1], mark + 1);
    assert !Listed(refreshes[..1], mark + 1);
  }

  lemma SingleSegment(d: real, start: nat, mark: nat)
    ensures NewContent([d], start, mark) == if start > mark then d else 0.0
  {
    OneMoreSegment([], d, start, mark);
    assert [] + [d] == [d];
  }
}
