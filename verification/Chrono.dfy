/**
 The duration conversions of libs/opaleye-util/chrono_util.cpp. Durations are
 counts of ticks and may be negative; seconds are obtained by truncation.
 */
module Chrono {
  import opened CInt

  const NSEC_PER_SEC := 1_000_000_000
  const USEC_PER_SEC := 1_000_000

  datatype Timespec = Timespec(sec: int, nsec: int)
  datatype Timeval = Timeval(sec: int, usec: int)

  /** The range POSIX asks of `tv_nsec`. */
  predicate Normalised(ts: Timespec) {
    0 <= ts.nsec < NSEC_PER_SEC
  }

  /** Whole seconds and remainder point the same way. */
  predicate SameSign(sec: int, part: int) {
    (sec > 0 ==> part >= 0) && (sec < 0 ==> part <= 0)
  }

  function ChronoToTimespec(c: int): Timespec {
    var sec := TruncDiv(c, NSEC_PER_SEC);
    Timespec(sec, c - sec * NSEC_PER_SEC)
  }

  function TimespecToChrono(ts: Timespec): int {
    ts.sec * NSEC_PER_SEC + ts.nsec
  }

  function ChronoToTimeval(c: int): Timeval {
    var sec := TruncDiv(c, USEC_PER_SEC);
    Timeval(sec, c - sec * USEC_PER_SEC)
  }

  function TimevalToChrono(tv: Timeval): int {
    tv.sec * USEC_PER_SEC + tv.usec
  }

  method TimespecAddChrono(ts: Timespec, c: int) returns (out: Timespec)
    ensures TimespecToChrono(out) == TimespecToChrono(ts) + c
    ensures Normalised(ts) ==> Normalised(out)
    ensures Normalised(out) <==> -NSEC_PER_SEC <= ts.nsec + ChronoToTimespec(c).nsec < 2 * NSEC_PER_SEC
  {
    TruncDivRemainder(c, NSEC_PER_SEC);
    var sec := TruncDiv(c, NSEC_PER_SEC);
    out := Timespec(ts.sec + sec, ts.nsec + (c - sec * NSEC_PER_SEC));
    if out.nsec > 999_999_999 {
      out := out.(nsec := out.nsec - NSEC_PER_SEC, sec := out.sec + 1);
    } else if out.nsec < 0 {
      out := out.(nsec := out.nsec + NSEC_PER_SEC, sec := out.sec - 1);
    }
  }

  /**
   In 64-bit words: the parts of a duration and the sum of nanoseconds always fit, and the seconds
   do unless the timespec is within about 292 years of the ends of the range.
   */
  lemma AddChronoFits(ts: Timespec, c: int)
    requires Normalised(ts) && IsInt64(c)
    ensures var sec := TruncDiv(c, NSEC_PER_SEC);
            && -9_223_372_036 <= sec <= 9_223_372_036
            && IsInt64(sec * NSEC_PER_SEC) && IsInt64(c - sec * NSEC_PER_SEC)
            && IsInt64(ts.nsec + (c - sec * NSEC_PER_SEC))
    ensures -TWO63 + 9_223_372_037 <= ts.sec < TWO63 - 9_223_372_037 ==>
              var sec := ts.sec + TruncDiv(c, NSEC_PER_SEC);
              IsInt64(sec - 1) && IsInt64(sec) && IsInt64(sec + 1)
  {
    TruncDivRemainder(c, NSEC_PER_SEC);
  }

  /** Splitting loses nothing, and the parts are those truncation gives. */
  lemma TimespecSplit(c: int)
    ensures TimespecToChrono(ChronoToTimespec(c)) == c
    ensures var ts := ChronoToTimespec(c);
            && c == ts.sec * 1_000_000_000 + ts.nsec
            && -1_000_000_000 < ts.nsec < 1_000_000_000 && SameSign(ts.sec, ts.nsec)
            && (Normalised(ts) <==> c >= 0 || c % NSEC_PER_SEC == 0)
  {
    TruncDivRemainder(c, NSEC_PER_SEC);
  }

  /** Joining is undone exactly for timespecs that splitting can produce. */
  lemma TimespecJoin(ts: Timespec)
    ensures ChronoToTimespec(TimespecToChrono(ts)) == ts
            <==> -NSEC_PER_SEC < ts.nsec < NSEC_PER_SEC && SameSign(ts.sec, ts.nsec)
  {
    TimespecSplit(TimespecToChrono(ts));
  }

  lemma TimevalSplit(c: int)
    ensures TimevalToChrono(ChronoToTimeval(c)) == c
    ensures var tv := ChronoToTimeval(c);
            && c == tv.sec * 1_000_000 + tv.usec
            && -1_000_000 < tv.usec < 1_000_000 && SameSign(tv.sec, tv.usec)
  {
    TruncDivRemainder(c, USEC_PER_SEC);
  }

  lemma TimevalJoin(tv: Timeval)
    ensures ChronoToTimeval(TimevalToChrono(tv)) == tv
            <==> -USEC_PER_SEC < tv.usec < USEC_PER_SEC && SameSign(tv.sec, tv.usec)
  {
    TimevalSplit(TimevalToChrono(tv));
  }
}
