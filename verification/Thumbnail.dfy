/**
 The software thumbnail stage, libs/camera-pipes/pipeline/Thumbnail_sw2_pipe.cpp and .hpp with
 libs/opaleye-util/Stopwatch.cpp: frames are thinned out by a stopwatch, encoded into a back page
 and published by swapping pages. The JPEG codec is a parameter.
 */
module Thumbnail {
  import opened CInt
  import opened Wrappers

  type Bytes = seq<bv8>

  // ---- Rate limiting ----

  class Stopwatch {
    var t0: int
    var alarmDt: int

    constructor (alarmDt: int)
      ensures t0 == 0 && this.alarmDt == alarmDt
    {
      t0 := 0;
      this.alarmDt := alarmDt;
    }

    predicate IsExpired(now: int)
      reads this
    {
      now - t0 >= alarmDt
    }

    function TimeLeft(now: int): (left: int)
      reads this
      ensures left >= 0 && (left == 0 <==> IsExpired(now)) && IsExpired(now + left)
    {
      var dt := t0 + alarmDt - now;
      if dt > 0 then dt else 0
    }

    method Reset(now: int)
      modifies this
      ensures t0 == now && alarmDt == old(alarmDt)
    {
      t0 := now;
    }
  }

  /** One `handle_new_sample`: the clock as the alarm test and the reset read it, and the sample's memory blocks. */
  datatype Call = Call(now: int, resetNow: int, sample: Option<seq<Bytes>>)

  /** When a call processes its sample, given the time of the last reset. */
  predicate Processes(t0: int, dt: int, c: Call) {
    c.now - t0 >= dt && c.sample.Some?
  }

  /** The reset times of the calls that process a sample. */
  function Processed(t0: int, dt: int, calls: seq<Call>): seq<int>
    decreases |calls|
  {
    if calls == [] then []
    else
      var c := calls[0];
      if Processes(t0, dt, c) then [c.resetNow] + Processed(c.resetNow, dt, calls[1..])
      else Processed(t0, dt, calls[1..])
  }

  /** A monotonic clock. */
  predicate Monotonic(calls: seq<Call>) {
    && (forall i :: 0 <= i < |calls| ==> calls[i].now <= calls[i].resetNow)
    && (forall i, j :: 0 <= i < j < |calls| ==> calls[i].resetNow <= calls[j].now)
  }

  predicate Spaced(ts: seq<int>, dt: int) {
    forall i, j :: 0 <= i < j < |ts| ==> ts[j] - ts[i] >= dt
  }

  function CountIn(ts: seq<int>, lo: int, hi: int): nat {
    if ts == [] then 0
    else CountIn(ts[..|ts| - 1], lo, hi) + (if lo <= ts[|ts| - 1] <= hi then 1 else 0)
  }

  lemma {:induction false} ProcessedSpaced(t0: int, dt: int, calls: seq<Call>)
    requires Monotonic(calls) && dt >= 0
    ensures Spaced(Processed(t0, dt, calls), dt)
    ensures forall i :: 0 <= i < |Processed(t0, dt, calls)| ==> Processed(t0, dt, calls)[i] >= t0 + dt
    decreases |calls|
  {
    if calls != [] {
      var c := calls[0];
      if Processes(t0, dt, c) {
        ProcessedSpaced(c.resetNow, dt, calls[1..]);
      } else {
        ProcessedSpaced(t0, dt, calls[1..]);
      }
    }
  }

  /** One of the times is less than dt before this one, or later. */
  ghost predicate Recent(ts: seq<int>, now: int, dt: int) {
    exists k :: 0 <= k < |ts| && now - ts[k] < dt
  }

  lemma RecentCons(t: int, ts: seq<int>, now: int, dt: int)
    ensures Recent([t] + ts, now, dt) <==> now - t < dt || Recent(ts, now, dt)
  {
    var all := [t] + ts;
    assert all[0] == t;
    if Recent(ts, now, dt) {
      var k :| 0 <= k < |ts| && now - ts[k] < dt;
      assert all[k + 1] == ts[k];
    }
  }

  /**
   No sample waits: each is processed itself or comes less than dt after the last reset, which is that
   of an earlier processed one or the initial time.
   */
  lemma {:induction false} SamplesServed(t0: int, dt: int, calls: seq<Call>, i: nat)
    requires dt > 0 && i < |calls| && calls[i].sample.Some? && calls[i].now <= calls[i].resetNow
    ensures calls[i].now - t0 < dt || Recent(Processed(t0, dt, calls[..i + 1]), calls[i].now, dt)
    decreases |calls|
  {
    var upto, c := calls[..i + 1], calls[0];
    var t1 := if Processes(t0, dt, c) then c.resetNow else t0;
    var rest := Processed(t1, dt, upto[1..]);
    RecentCons(c.resetNow, rest, calls[i].now, dt);
    if i > 0 {
      assert upto[1..] == calls[1..][..i];
      SamplesServed(t1, dt, calls[1..], i - 1);
    }
  }

  /** Narrowing the window above every time it holds changes nothing. */
  lemma {:induction false} CountNarrow(ts: seq<int>, lo: int, hi: int, hi': int)
    requires hi' <= hi && forall i :: 0 <= i < |ts| ==> ts[i] <= hi'
    ensures CountIn(ts, lo, hi) == CountIn(ts, lo, hi')
  {
    if ts != [] {
      CountNarrow(ts[..|ts| - 1], lo, hi, hi');
    }
  }

  /** How many points dt apart fit in a closed window. */
  function Capacity(dt: int, lo: int, hi: int): int
    requires dt > 0
  {
    if lo <= hi then (hi - lo) / dt + 1 else 0
  }

  lemma CapacityStep(dt: int, lo: int, last: int, hi: int)
    requires dt > 0 && lo <= last <= hi
    ensures Capacity(dt, lo, last - dt) + 1 <= Capacity(dt, lo, hi)
  {
    var x := last - lo;
    DivMonotone(x, hi - lo, dt);
    DivUnique(x - dt, dt, x / dt - 1, x % dt);
    assert 0 / dt == 0;
    DivMonotone(0, x, dt);
  }

  lemma {:induction false} SpacedCount(ts: seq<int>, dt: int, lo: int, hi: int)
    requires dt > 0 && Spaced(ts, dt)
    ensures CountIn(ts, lo, hi) <= Capacity(dt, lo, hi)
  {
    if ts == [] {
      assert lo <= hi ==> 0 / dt <= (hi - lo) / dt by {
        if lo <= hi {
          DivMonotone(0, hi - lo, dt);
        }
      }
      assert 0 / dt == 0;
    } else {
      var last, rest := ts[|ts| - 1], ts[..|ts| - 1];
      if lo <= last <= hi {
        assert forall i :: 0 <= i < |rest| ==> rest[i] <= last - dt;
        CountNarrow(rest, lo, hi, last - dt);
        SpacedCount(rest, dt, lo, last - dt);
        CapacityStep(dt, lo, last, hi);
      } else {
        SpacedCount(rest, dt, lo, hi);
      }
    }
  }

  /** Any window of length L sees at most floor(L / dt) + 1 processed thumbnails. */
  lemma RateLimit(t0: int, dt: int, calls: seq<Call>, lo: int, length: nat)
    requires Monotonic(calls) && dt > 0
    ensures CountIn(Processed(t0, dt, calls), lo, lo + length) <= length / dt + 1
  {
    ProcessedSpaced(t0, dt, calls);
    SpacedCount(Processed(t0, dt, calls), dt, lo, lo + length);
  }

  // ---- Readers beside the writer ----

  /** The encoder fills the back page byte by byte, outside any lock. */
  datatype Writer = Idle | Encoding(image: Bytes, written: nat)

  /** A reader holding the page lock, and what it has copied so far. */
  datatype Reader = Reader(id: nat, copied: Bytes)

  /** A finished copy, and how many images had been published by then. */
  datatype Delivery = Delivery(id: nat, bytes: Bytes, published: nat)

  datatype Shared = Shared(
    pages: seq<Bytes>,            // the two page objects
    front: nat,
    back: nat,
    writer: Writer,
    lock: Option<Reader>,         // the page mutex, when a reader holds it
    published: seq<Bytes>,        // every image whose encoding was completed and flipped
    delivered: seq<Delivery>)

  const FRESH := Shared([[], []], 0, 1, Idle, None, [], [])

  datatype Event =
    | BeginEncode(image: Bytes)
    | WriteByte
    | AbortEncode
    | Flip
    | Lock(id: nat)
    | CopyByte
    | Unlock

  predicate PagesOk(s: Shared) {
    |s.pages| == 2 && s.front < 2 && s.back < 2 && s.front != s.back
  }

  /** One step of the writer or of a reader; a step that cannot be taken leaves the state alone. */
  function Step(s: Shared, e: Event): (s': Shared)
    requires PagesOk(s)
    ensures PagesOk(s')
  {
    match e
    case BeginEncode(image) =>
      if s.writer.Idle? then s.(writer := Encoding(image, 0), pages := s.pages[s.back := []]) else s
    case WriteByte =>
      if s.writer.Encoding? && s.writer.written < |s.writer.image| then
        s.(writer := s.writer.(written := s.writer.written + 1),
           pages := s.pages[s.back := s.pages[s.back] + [s.writer.image[s.writer.written]]])
      else s
    case AbortEncode => s.(writer := Idle)
    case Flip =>
      if s.writer.Encoding? && s.writer.written == |s.writer.image| && s.lock.None? then
        s.(writer := Idle, front := s.back, back := s.front, published := s.published + [s.writer.image])
      else s
    case Lock(id) =>
      if s.lock.None? then s.(lock := Some(Reader(id, []))) else s
    case CopyByte =>
      if s.lock.Some? && |s.lock.value.copied| < |s.pages[s.front]| then
        var r := s.lock.value;
        s.(lock := Some(r.(copied := r.copied + [s.pages[s.front][|r.copied|]])))
      else s
    case Unlock =>
      if s.lock.Some? && |s.lock.value.copied| == |s.pages[s.front]| then
        s.(lock := None,
           delivered := s.delivered + [Delivery(s.lock.value.id, s.lock.value.copied, |s.published|)])
      else s
  }

  function Run(s: Shared, es: seq<Event>): (s': Shared)
    requires PagesOk(s)
    ensures PagesOk(s')
    decreases |es|
  {
    if es == [] then s else Run(Step(s, es[0]), es[1..])
  }

  /** The image on show after some publications: the latest, or the initial empty page. */
  function Latest(images: seq<Bytes>): Bytes {
    if images == [] then [] else images[|images| - 1]
  }

  ghost predicate DeliveryOk(d: Delivery, published: seq<Bytes>) {
    d.published <= |published| && d.bytes == Latest(published[..d.published])
  }

  ghost predicate Untorn(s: Shared) {
    && PagesOk(s)
    && s.pages[s.front] == Latest(s.published)
    && (s.writer.Encoding? ==> s.writer.written <= |s.writer.image|
                               && s.pages[s.back] == s.writer.image[..s.writer.written])
    && (s.lock.Some? ==> s.lock.value.copied <= s.pages[s.front])
    && (forall i :: 0 <= i < |s.delivered| ==> DeliveryOk(s.delivered[i], s.published))
  }

  lemma StepUntorn(s: Shared, e: Event)
    requires Untorn(s)
    ensures Untorn(Step(s, e))
  {
    var s' := Step(s, e);
    match e
    case Flip =>
      assert s.writer.Encoding? ==> s.writer.image[..|s.writer.image|] == s.writer.image;
      forall i | 0 <= i < |s'.delivered|
        ensures DeliveryOk(s'.delivered[i], s'.published)
      {
        assert DeliveryOk(s.delivered[i], s.published);
        assert s'.published[..s.delivered[i].published] == s.published[..s.delivered[i].published];
      }
    case Unlock =>
      assert s.published[..|s.published|] == s.published;
    case _ =>
  }

  lemma {:induction false} RunUntorn(s: Shared, es: seq<Event>)
    requires Untorn(s)
    ensures Untorn(Run(s, es))
    decreases |es|
  {
    if es != [] {
      StepUntorn(s, es[0]);
      RunUntorn(Step(s, es[0]), es[1..]);
    }
  }

  /**
   In every interleaving of encoding, flipping and copying the two pages stay distinct, and every
   copy a reader finishes is the complete image published last, or the initial empty page.
   */
  lemma ReadersSeeWholeImages(es: seq<Event>, i: nat)
    requires i < |Run(FRESH, es).delivered|
    ensures var s := Run(FRESH, es);
            && s.front != s.back
            && s.delivered[i].published <= |s.published|
            && s.delivered[i].bytes == Latest(s.published[..s.delivered[i].published])
  {
    RunUntorn(FRESH, es);
    assert DeliveryOk(Run(FRESH, es).delivered[i], Run(FRESH, es).published);
  }

  /** The steps of one image that nobody disturbs. */
  function Publication(image: Bytes): seq<Event> {
    [BeginEncode(image)] + seq(|image|, _ => WriteByte) + [Flip]
  }

  /** The image on the former back page, which is the front page now. */
  function PublishedState(s: Shared, image: Bytes): Shared
    requires PagesOk(s)
  {
    s.(pages := s.pages[s.back := image], front := s.back, back := s.front, writer := Idle,
       published := s.published + [image])
  }

  lemma {:induction false} WritesFlip(s: Shared, n: nat)
    requires Untorn(s) && s.writer.Encoding? && s.lock == None && s.writer.written + n == |s.writer.image|
    ensures Run(s, seq(n, _ => WriteByte) + [Flip]) == PublishedState(s, s.writer.image)
    decreases n
  {
    var es: seq<Event> := seq(n, _ => WriteByte) + [Flip];
    if n == 0 {
      assert es == [Flip] && es[1..] == [];
      assert s.writer.image[..s.writer.written] == s.writer.image;
      assert s.pages[s.back := s.pages[s.back]] == s.pages;
    } else {
      assert es[0] == WriteByte && es[1..] == seq(n - 1, _ => WriteByte) + [Flip];
      StepUntorn(s, WriteByte);
      var s' := Step(s, WriteByte);
      WritesFlip(s', n - 1);
      assert s'.pages[s.back := s.writer.image] == s.pages[s.back := s.writer.image];
    }
  }

  /** An undisturbed publication swaps the pages and leaves the image on the front page. */
  lemma UndisturbedPublication(s: Shared, image: Bytes)
    requires Untorn(s) && s.writer == Idle && s.lock == None
    ensures Run(s, Publication(image)) == PublishedState(s, image)
  {
    var rest: seq<Event> := seq(|image|, _ => WriteByte) + [Flip];
    assert Publication(image) == [BeginEncode(image)] + rest;
    assert Publication(image)[1..] == rest;
    StepUntorn(s, BeginEncode(image));
    var s' := Step(s, BeginEncode(image));
    WritesFlip(s', |image|);
    assert s'.pages[s.back := image] == s.pages[s.back := image];
  }

  // ---- The stage ----

  class Page {
    var bytes: Bytes

    constructor ()
      ensures bytes == []
    {
      bytes := [];
    }
  }

  /** The contents of a buffer made of memory blocks. */
  function Flatten(blocks: seq<Bytes>): Bytes {
    if blocks == [] then [] else Flatten(blocks[..|blocks| - 1]) + blocks[|blocks| - 1]
  }

  lemma {:induction false} FlattenPrefix(blocks: seq<Bytes>, i: nat)
    requires i <= |blocks|
    ensures |Flatten(blocks[..i])| <= |Flatten(blocks)|
    ensures i < |blocks| ==> Flatten(blocks[..i + 1]) == Flatten(blocks[..i]) + blocks[i]
    ensures i < |blocks| ==> |Flatten(blocks[..i])| + |blocks[i]| <= |Flatten(blocks)|
    decreases |blocks|
  {
    if i == |blocks| {
      assert blocks[..i] == blocks;
    } else {
      var rest := blocks[..|blocks| - 1];
      FlattenPrefix(rest, i);
      assert rest[..i] == blocks[..i];
      if i < |rest| {
        assert rest[..i + 1] == blocks[..i + 1];
      } else {
        assert blocks[..i + 1] == blocks && rest == blocks[..i];
      }
    }
  }

  /** Each byte of each block is found behind the blocks before it. */
  lemma {:induction false} FlattenAt(blocks: seq<Bytes>, i: nat, k: nat)
    requires i < |blocks| && k < |blocks[i]|
    ensures var at := |Flatten(blocks[..i])|;
            at + k < |Flatten(blocks)| && Flatten(blocks)[at + k] == blocks[i][k]
    decreases |blocks|
  {
    var rest := blocks[..|blocks| - 1];
    if i < |rest| {
      FlattenAt(rest, i, k);
      assert rest[..i] == blocks[..i];
    } else {
      assert rest == blocks[..i];
    }
  }

  /** The block loop of `handle_new_sample`: an output position runs through a buffer of the total size. */
  method CopyBlocks(blocks: seq<Bytes>) returns (frame: array<bv8>)
    ensures fresh(frame) && frame[..] == Flatten(blocks)
  {
    frame := new bv8[|Flatten(blocks)|];
    var at := 0;
    for i := 0 to |blocks|
      invariant at == |Flatten(blocks[..i])| <= frame.Length && frame[..at] == Flatten(blocks[..i])
    {
      FlattenPrefix(blocks, i);
      var block := blocks[i];
      forall k | 0 <= k < |block| {
        frame[at + k] := block[k];
      }
      assert frame[..at + |block|] == Flatten(blocks[..i]) + block;
      at := at + |block|;
    }
    assert blocks[..|blocks|] == blocks;
  }

  /**
   What decoding, shrinking and encoding a frame gives: nothing, or the bytes the encoder leaves
   in the page and whether it reports success.
   */
  datatype Coded = Undecodable | Encoded(bytes: Bytes, reported: bool)

  class ThumbnailPipe {
    const stopwatch: Stopwatch
    var front: Page
    var back: Page
    ghost const page0: Page
    ghost const page1: Page
    ghost var published: seq<Bytes>

    /** The pages as the readers share them, between two frames and with no reader at work. */
    ghost function View(): Shared
      reads this, page0, page1
    {
      Shared([page0.bytes, page1.bytes], if front == page0 then 0 else 1, if back == page0 then 0 else 1,
             Idle, None, published, [])
    }

    ghost predicate Valid()
      reads this, page0, page1
    {
      front != back && {front, back} == {page0, page1} && Untorn(View())
    }

    constructor (alarmDt: int)
      ensures Valid() && fresh(front) && fresh(back) && fresh(stopwatch)
      ensures View() == FRESH && stopwatch.t0 == 0 && stopwatch.alarmDt == alarmDt
    {
      stopwatch := new Stopwatch(alarmDt);
      front := new Page();
      back := new Page();
      page0, page1, published := front, back, [];
    }

    /**
     A frame that does not decode publishes nothing; otherwise the image is published in the steps
     that readers can interrupt, whatever the encoder reports.
     */
    method DownsampleJpeg(frame: Bytes, codec: Bytes -> Coded) returns (ok: bool)
      requires Valid()
      modifies this`front, this`back, this`published, back
      ensures Valid() && ok == codec(frame).Encoded?
      ensures ok ==> front == old(back) && back == old(front) && front.bytes == codec(frame).bytes
      ensures View() == if ok then Run(old(View()), Publication(codec(frame).bytes)) else old(View())
    {
      var out := codec(frame);
      if out.Undecodable? {
        return false;
      }
      UndisturbedPublication(View(), out.bytes);
      RunUntorn(View(), Publication(out.bytes));
      back.bytes := out.bytes;
      front, back := back, front;
      published := published + [out.bytes];
      ok := true;
    }

    method HandleNewSample(c: Call, codec: Bytes -> Coded) returns (processed: bool)
      requires Valid()
      modifies stopwatch, this`front, this`back, this`published, back
      ensures Valid()
      ensures processed <==> c.now - old(stopwatch.t0) >= old(stopwatch.alarmDt) && c.sample.Some?
      ensures stopwatch.t0 == (if processed then c.resetNow else old(stopwatch.t0))
      ensures stopwatch.alarmDt == old(stopwatch.alarmDt)
      ensures front.bytes == if processed && codec(Flatten(c.sample.value)).Encoded?
                             then codec(Flatten(c.sample.value)).bytes else old(front.bytes)
      ensures View() == if processed && codec(Flatten(c.sample.value)).Encoded?
                        then Run(old(View()), Publication(codec(Flatten(c.sample.value)).bytes)) else old(View())
    {
      processed := false;
      if stopwatch.IsExpired(c.now) && c.sample.Some? {
        stopwatch.Reset(c.resetNow);
        processed := true;
        var frame := CopyBlocks(c.sample.value);
        var _ := DownsampleJpeg(frame[..], codec);
      }
    }
  }
}
