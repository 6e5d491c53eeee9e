/**
 Buffer ownership between the camera class libs/camera-pipes/cameras/Alvium_v4l2.cpp, its worker
 thread libs/camera-pipes/pipeline/camera/V4L2_alvium_pipe.cpp and a V4L2 driver in memory-mapped
 streaming mode. A buffer is either queued in the driver or in the hands of the application.
 */
module V4l2Stream {
  import opened CInt
  import opened Wrappers

  const CAPTURE := 1  // V4L2_BUF_TYPE_VIDEO_CAPTURE
  const MMAP := 1     // V4L2_MEMORY_MMAP

  /** The fields of `v4l2_buffer` that matter here. */
  datatype Buf = Buf(index: nat, kind: nat, memory: nat, bytesUsed: nat, sequence: nat)

  /** `reset_buf`: everything is cleared but index, type and memory kind. */
  function Reset(b: Buf): Buf {
    b.(bytesUsed := 0, sequence := 0)
  }

  // ---- The driver ----

  datatype Driver = Driver(count: nat, incoming: seq<nat>, done: seq<nat>, streaming: bool)

  /** The buffers the driver holds. */
  function Owned(d: Driver): seq<nat> {
    d.incoming + d.done
  }

  /** VIDIOC_QBUF: refused for a buffer the driver already holds or does not know. */
  function Qbuf(d: Driver, b: Buf, ok: bool): Option<Driver> {
    if ok && b.index < d.count && b.index !in Owned(d) && b.kind == CAPTURE && b.memory == MMAP
    then Some(d.(incoming := d.incoming + [b.index])) else None
  }

  /** VIDIOC_DQBUF: the oldest filled buffer. */
  function Dqbuf(d: Driver, ok: bool): Option<(nat, Driver)> {
    if ok && d.streaming && d.done != [] then Some((d.done[0], d.(done := d.done[1..]))) else None
  }

  /** VIDIOC_STREAMOFF: all buffers go back to the application. */
  function StreamOff(d: Driver): Driver {
    Driver(d.count, [], [], false)
  }

  /** The device has filled the oldest queued buffer. */
  function Filled(d: Driver): Driver {
    if d.streaming && d.incoming != []
    then d.(incoming := d.incoming[1..], done := d.done + [d.incoming[0]]) else d
  }

  // ---- The camera ----

  datatype Camera = Camera(bufs: map<nat, Buf>, drv: Driver, inCallback: Option<nat>)

  datatype Event =
    | FrameFilled
    | BeginFrame(ready: bool, ok: bool, bytesUsed: nat, sequence: nat)  // select, DQBUF, enter callback
    | CallbackReturns(ok: bool)                                         // then QBUF
    | CallbackThrows                                                    // swallowed by the worker
    | StartStreaming(failAt: Option<nat>, onOk: bool)                   // undisturbed from first to last
    | QueueTurn(i: nat, ok: bool)                                       // one turn of a start that others interrupt
    | StreamOn(ok: bool)                                                // and its last step
    | StopStreaming(ok: bool)

  /** One turn of the queueing loop of `start_streaming`, and whether the driver took the buffer. */
  function Turn(c: Camera, i: nat, ok: bool): (Camera, bool)
    requires i in c.bufs
  {
    var c1 := c.(bufs := c.bufs[i := Reset(c.bufs[i])]);
    match Qbuf(c1.drv, c1.bufs[i], ok)
    case None => (c1, false)
    case Some(d) => (c1.(drv := d), true)
  }

  /** The queueing loop of `start_streaming` from buffer i on, and whether it completes. */
  function StartLoop(c: Camera, i: nat, failAt: Option<nat>): (Camera, bool)
    decreases c.drv.count - i
  {
    if i >= c.drv.count || i !in c.bufs then (c, true)
    else
      var (c1, queued) := Turn(c, i, failAt != Some(i));
      if queued then StartLoop(c1, i + 1, failAt) else (c1, false)
  }

  function Step(c: Camera, e: Event): Camera {
    match e
    case FrameFilled => c.(drv := Filled(c.drv))
    case BeginFrame(ready, ok, bytesUsed, sequence) =>
      if !ready || c.inCallback.Some? then c
      else
        (match Dqbuf(c.drv, ok)
         case None => c
         case Some((i, d)) =>
           if i !in c.bufs then c.(drv := d)
           else Camera(c.bufs[i := Buf(i, CAPTURE, MMAP, bytesUsed, sequence)], d, Some(i)))
    case CallbackReturns(ok) =>
      if c.inCallback.None? || c.inCallback.value !in c.bufs then c
      else
        var i := c.inCallback.value;
        var c1 := Camera(c.bufs[i := Reset(c.bufs[i])], c.drv, None);
        (match Qbuf(c.drv, c1.bufs[i], ok)
         case None => c1
         case Some(d) => c1.(drv := d))
    case CallbackThrows => c.(inCallback := None)
    case StartStreaming(failAt, onOk) =>
      var (c1, queued) := StartLoop(c, 0, failAt);
      if queued && onOk then c1.(drv := c1.drv.(streaming := true)) else c1
    case QueueTurn(i, ok) => if i in c.bufs then Turn(c, i, ok).0 else c
    case StreamOn(ok) => if ok then c.(drv := c.drv.(streaming := true)) else c
    case StopStreaming(ok) =>
      if ok then c.(drv := StreamOff(c.drv)) else c
  }

  function Run(c: Camera, es: seq<Event>): Camera
    decreases |es|
  {
    if es == [] then c else Run(Step(c, es[0]), es[1..])
  }

  // ---- What every run keeps ----

  ghost predicate NoDuplicates(s: seq<nat>) {
    forall i, j :: 0 <= i < j < |s| ==> s[i] != s[j]
  }

  /**
   The table key, the index and the kind of every buffer agree, and the driver holds each buffer
   at most once.
   */
  ghost predicate Coherent(c: Camera) {
    && (forall i: nat :: i in c.bufs <==> i < c.drv.count)
    && (forall i :: i in c.bufs ==> c.bufs[i].index == i && c.bufs[i].kind == CAPTURE && c.bufs[i].memory == MMAP)
    && NoDuplicates(Owned(c.drv))
    && (forall x :: x in Owned(c.drv) ==> x < c.drv.count)
    && (c.inCallback.Some? ==> c.inCallback.value < c.drv.count)
  }

  lemma QbufKeeps(d: Driver, b: Buf, ok: bool)
    requires NoDuplicates(Owned(d)) && Qbuf(d, b, ok).Some?
    ensures var d' := Qbuf(d, b, ok).value;
            && NoDuplicates(Owned(d'))
            && forall x :: x in Owned(d') <==> x in Owned(d) || x == b.index
  {
    var d' := Qbuf(d, b, ok).value;
    var s, s' := Owned(d), Owned(d');
    var n := |d.incoming|;
    forall i, j | 0 <= i < j < |s'|
      ensures s'[i] != s'[j]
    {
      assert s'[i] == if i < n then s[i] else if i == n then b.index else s[i - 1];
      assert s'[j] == if j < n then s[j] else if j == n then b.index else s[j - 1];
    }
    assert s' == d.incoming + [b.index] + d.done;
  }

  lemma FilledKeeps(d: Driver)
    ensures Filled(d).count == d.count && |Owned(Filled(d))| == |Owned(d)|
    ensures forall x :: x in Owned(Filled(d)) <==> x in Owned(d)
    ensures NoDuplicates(Owned(d)) ==> NoDuplicates(Owned(Filled(d)))
  {
    if d.streaming && d.incoming != [] {
      var s, s' := Owned(d), Owned(Filled(d));
      assert s == [d.incoming[0]] + (d.incoming[1..] + d.done);
      assert s' == (d.incoming[1..] + d.done) + [d.incoming[0]];
      assert forall i :: 0 <= i < |s'| ==> s'[i] == s[if i + 1 < |s| then i + 1 else 0];
    }
  }

  lemma DqbufKeeps(d: Driver, ok: bool)
    requires NoDuplicates(Owned(d)) && Dqbuf(d, ok).Some?
    ensures var (i, d') := Dqbuf(d, ok).value;
            && NoDuplicates(Owned(d'))
            && (forall x :: x in Owned(d') <==> x in Owned(d) && x != i)
            && i in Owned(d)
  {
    var (i, d') := Dqbuf(d, ok).value;
    var s, s' := Owned(d), Owned(d');
    var n := |d.incoming|;
    assert s == d.incoming + [i] + d.done[1..];
    assert s' == d.incoming + d.done[1..];
    assert forall k :: 0 <= k < |s'| ==> s'[k] == s[if k < n then k else k + 1];
    assert s[n] == i;
  }

  lemma TurnKeeps(c: Camera, i: nat, ok: bool)
    requires Coherent(c) && i in c.bufs
    ensures var (c', queued) := Turn(c, i, ok);
            && Coherent(c') && c'.drv.count == c.drv.count && c'.inCallback == c.inCallback
            && (queued <==> ok && i !in Owned(c.drv))
            && (forall x :: x in Owned(c'.drv) <==> x in Owned(c.drv) || (queued && x == i))
  {
    var b := Reset(c.bufs[i]);
    if Qbuf(c.drv, b, ok).Some? {
      QbufKeeps(c.drv, b, ok);
    }
  }

  lemma {:induction false} StartLoopKeeps(c: Camera, i: nat, failAt: Option<nat>)
    requires Coherent(c)
    ensures var c' := StartLoop(c, i, failAt).0;
            Coherent(c') && c'.drv.count == c.drv.count && c'.inCallback == c.inCallback
    decreases c.drv.count - i
  {
    if i < c.drv.count {
      TurnKeeps(c, i, failAt != Some(i));
      StartLoopKeeps(Turn(c, i, failAt != Some(i)).0, i + 1, failAt);
    }
  }

  lemma StreamOnKeeps(c: Camera)
    requires Coherent(c)
    ensures Coherent(c.(drv := c.drv.(streaming := true)))
  {
    assert Owned(c.drv.(streaming := true)) == Owned(c.drv);
  }

  lemma ReturnKeepsCoherent(c: Camera, ok: bool)
    requires Coherent(c)
    ensures var c' := Step(c, CallbackReturns(ok)); Coherent(c') && c'.drv.count == c.drv.count
  {
    if c.inCallback.Some? {
      var b := Reset(c.bufs[c.inCallback.value]);
      if Qbuf(c.drv, b, ok).Some? {
        QbufKeeps(c.drv, b, ok);
      }
    }
  }

  lemma StepKeepsCoherent(c: Camera, e: Event)
    requires Coherent(c)
    ensures Coherent(Step(c, e)) && Step(c, e).drv.count == c.drv.count
  {
    match e
    case FrameFilled => FilledKeeps(c.drv);
    case BeginFrame(_, ok, _, _) =>
      if Dqbuf(c.drv, ok).Some? {
        DqbufKeeps(c.drv, ok);
      }
    case CallbackReturns(ok) =>
      ReturnKeepsCoherent(c, ok);
    case CallbackThrows =>
    case StartStreaming(failAt, _) =>
      StartLoopKeeps(c, 0, failAt);
      StreamOnKeeps(StartLoop(c, 0, failAt).0);
    case QueueTurn(i, ok) =>
      if i in c.bufs {
        TurnKeeps(c, i, ok);
      }
    case StreamOn(_) => StreamOnKeeps(c);
    case StopStreaming(_) =>
  }

  /** Over every interleaving of frames, callbacks, single turns of starts, stops and failures the tables agree. */
  lemma {:induction false} EveryRunCoherent(c: Camera, es: seq<Event>)
    requires Coherent(c)
    ensures Coherent(Run(c, es)) && Run(c, es).drv.count == c.drv.count
    decreases |es|
  {
    if es != [] {
      StepKeepsCoherent(c, es[0]);
      EveryRunCoherent(Step(c, es[0]), es[1..]);
    }
  }

  /** Whatever the driver holds has cleared metadata. */
  ghost predicate Clean(c: Camera) {
    forall i :: i in Owned(c.drv) && i in c.bufs ==> c.bufs[i].bytesUsed == 0 && c.bufs[i].sequence == 0
  }

  lemma {:induction false} StartLoopClean(c: Camera, i: nat, failAt: Option<nat>)
    requires Coherent(c) && Clean(c)
    ensures Clean(StartLoop(c, i, failAt).0)
    decreases c.drv.count - i
  {
    if i < c.drv.count {
      TurnKeeps(c, i, failAt != Some(i));
      StartLoopClean(Turn(c, i, failAt != Some(i)).0, i + 1, failAt);
    }
  }

  lemma StepKeepsClean(c: Camera, e: Event)
    requires Coherent(c) && Clean(c)
    ensures Clean(Step(c, e))
  {
    match e
    case FrameFilled => FilledKeeps(c.drv);
    case BeginFrame(_, ok, _, _) =>
      if Dqbuf(c.drv, ok).Some? {
        DqbufKeeps(c.drv, ok);
      }
    case CallbackReturns(ok) =>
      if c.inCallback.Some? {
        var b := Reset(c.bufs[c.inCallback.value]);
        if Qbuf(c.drv, b, ok).Some? {
          QbufKeeps(c.drv, b, ok);
        }
      }
    case CallbackThrows =>
    case StartStreaming(failAt, _) =>
      StartLoopClean(c, 0, failAt);
      var d := StartLoop(c, 0, failAt).0.drv;
      assert Owned(d.(streaming := true)) == Owned(d);
    case QueueTurn(i, ok) =>
      if i in c.bufs {
        TurnKeeps(c, i, ok);
      }
    case StreamOn(_) =>
      assert Owned(c.drv.(streaming := true)) == Owned(c.drv);
    case StopStreaming(_) =>
  }

  /** Over every interleaving no buffer is handed to the driver with the metadata of an old frame. */
  lemma {:induction false} EveryRunClean(c: Camera, es: seq<Event>)
    requires Coherent(c) && Clean(c)
    ensures Clean(Run(c, es))
    decreases |es|
  {
    if es != [] {
      StepKeepsCoherent(c, es[0]);
      StepKeepsClean(c, es[0]);
      EveryRunClean(Step(c, es[0]), es[1..]);
    }
  }

  // ---- One frame ----

  /**
   A frame that is dequeued is the oldest filled one: it leaves the driver, and its buffer carries
   exactly the metadata that DQBUF reported. Without such a frame nothing changes.
   */
  lemma FrameTaken(c: Camera, ready: bool, ok: bool, bytesUsed: nat, sequence: nat)
    requires Coherent(c) && c.inCallback == None
    ensures var c' := Step(c, BeginFrame(ready, ok, bytesUsed, sequence));
            if ready && ok && c.drv.streaming && c.drv.done != [] then
              var i := c.drv.done[0];
              && c'.inCallback == Some(i) && i in c'.bufs
              && c'.bufs == c.bufs[i := Buf(i, CAPTURE, MMAP, bytesUsed, sequence)]
              && c'.drv == Driver(c.drv.count, c.drv.incoming, c.drv.done[1..], true)
            else c' == c
  {
    if c.drv.done != [] {
      assert c.drv.done[0] in Owned(c.drv);
    }
  }

  /** A callback that returns has its buffer cleared and, if QBUF works, put at the end of the queue. */
  lemma FrameReturned(c: Camera, ok: bool)
    requires Coherent(c) && c.inCallback.Some? && c.inCallback.value !in Owned(c.drv)
    ensures var i, c' := c.inCallback.value, Step(c, CallbackReturns(ok));
            && i in c'.bufs && c'.inCallback == None && c'.bufs == c.bufs[i := Buf(i, CAPTURE, MMAP, 0, 0)]
            && c'.drv == c.drv.(incoming := if ok then c.drv.incoming + [i] else c.drv.incoming)
  {
  }

  /** An event that neither ends the callback nor starts the stream over buffer i. */
  predicate Spares(e: Event, i: nat) {
    && !e.CallbackReturns? && !e.CallbackThrows? && !e.StartStreaming?
    && !(e.QueueTurn? && e.i == i)
  }

  /** While a callback runs, whatever the device, the worker and a stop do, its buffer is left alone. */
  lemma {:induction false} CallbackUndisturbed(c: Camera, es: seq<Event>, i: nat)
    requires Coherent(c) && c.inCallback == Some(i) && forall k :: 0 <= k < |es| ==> Spares(es[k], i)
    ensures i in c.bufs && i in Run(c, es).bufs
    ensures Run(c, es).inCallback == Some(i) && Run(c, es).bufs[i] == c.bufs[i]
    decreases |es|
  {
    if es != [] {
      StepKeepsCoherent(c, es[0]);
      CallbackUndisturbed(Step(c, es[0]), es[1..], i);
    }
  }

  /** The callback sees, as long as it runs undisturbed by a start, exactly the metadata of its frame. */
  lemma CallbackSees(c: Camera, bytesUsed: nat, sequence: nat, es: seq<Event>)
    requires Coherent(c) && c.inCallback == None && c.drv.streaming && c.drv.done != []
    requires forall k :: 0 <= k < |es| ==> Spares(es[k], c.drv.done[0])
    ensures var i, c' := c.drv.done[0], Run(Step(c, BeginFrame(true, true, bytesUsed, sequence)), es);
            c'.inCallback == Some(i) && i in c'.bufs && c'.bufs[i] == Buf(i, CAPTURE, MMAP, bytesUsed, sequence)
  {
    FrameTaken(c, true, true, bytesUsed, sequence);
    StepKeepsCoherent(c, BeginFrame(true, true, bytesUsed, sequence));
    CallbackUndisturbed(Step(c, BeginFrame(true, true, bytesUsed, sequence)), es, c.drv.done[0]);
  }

  // ---- Circulation while streaming ----

  /** An event of the worker or the device, not of a start or a stop. */
  predicate FrameEvent(e: Event) {
    !e.StartStreaming? && !e.QueueTurn? && !e.StreamOn? && !e.StopStreaming?
  }

  predicate OnlyFrames(es: seq<Event>) {
    forall k :: 0 <= k < |es| ==> FrameEvent(es[k])
  }

  /** A frame ends without its buffer going back: the callback threw, or QBUF failed. */
  predicate Loses(c: Camera, e: Event) {
    c.inCallback.Some? && (e.CallbackThrows? || (e.CallbackReturns? && !e.ok))
  }

  /** The buffers lost in a run, on top of those lost before. */
  function Lost(c: Camera, es: seq<Event>, lost: set<nat>): set<nat>
    decreases |es|
  {
    if es == [] then lost
    else Lost(Step(c, es[0]), es[1..], if Loses(c, es[0]) then lost + {c.inCallback.value} else lost)
  }

  function Losses(c: Camera, es: seq<Event>): nat
    decreases |es|
  {
    if es == [] then 0 else (if Loses(c, es[0]) then 1 else 0) + Losses(Step(c, es[0]), es[1..])
  }

  /** Each buffer is in exactly one place: the driver, the running callback, or lost. */
  ghost predicate Accounted(c: Camera, lost: set<nat>) {
    && (forall i: nat :: i < c.drv.count <==> i in Owned(c.drv) || c.inCallback == Some(i) || i in lost)
    && (forall i :: i in lost ==> i !in Owned(c.drv) && c.inCallback != Some(i))
    && (c.inCallback.Some? ==> c.inCallback.value !in Owned(c.drv))
  }

  lemma StreamingStep(c: Camera, e: Event, lost: set<nat>)
    requires Coherent(c) && Accounted(c, lost) && FrameEvent(e)
    ensures Accounted(Step(c, e), if Loses(c, e) then lost + {c.inCallback.value} else lost)
    ensures Loses(c, e) ==> c.inCallback.value !in lost
  {
    match e
    case FrameFilled => FilledKeeps(c.drv);
    case BeginFrame(_, ok, _, _) =>
      if Dqbuf(c.drv, ok).Some? {
        DqbufKeeps(c.drv, ok);
      }
    case CallbackReturns(ok) =>
      if c.inCallback.Some? {
        var b := Reset(c.bufs[c.inCallback.value]);
        if Qbuf(c.drv, b, ok).Some? {
          QbufKeeps(c.drv, b, ok);
        }
      }
    case CallbackThrows =>
  }

  /**
   Over every streaming run each buffer stays accounted for, and each callback exception or failed
   requeue takes exactly one buffer out of circulation.
   */
  lemma {:induction false} Circulation(c: Camera, es: seq<Event>, lost: set<nat>)
    requires Coherent(c) && Accounted(c, lost)
    requires OnlyFrames(es)
    ensures Accounted(Run(c, es), Lost(c, es, lost))
    ensures |Lost(c, es, lost)| == |lost| + Losses(c, es)
    decreases |es|
  {
    if es != [] {
      StepKeepsCoherent(c, es[0]);
      StreamingStep(c, es[0], lost);
      Circulation(Step(c, es[0]), es[1..], if Loses(c, es[0]) then lost + {c.inCallback.value} else lost);
    }
  }

  /** When callbacks return and ioctls succeed, all buffers are the driver's but the one in the callback. */
  lemma NormalStreaming(c: Camera, es: seq<Event>)
    requires Coherent(c) && Accounted(c, {}) && Losses(c, es) == 0
    requires OnlyFrames(es)
    ensures var c' := Run(c, es);
            forall i: nat :: i < c'.drv.count ==> (i in Owned(c'.drv) <==> c'.inCallback != Some(i))
  {
    Circulation(c, es, {});
    EveryRunCoherent(c, es);
    assert Lost(c, es, {}) == {};
  }

  // ---- Running out of buffers ----

  /** No continuation with frame events brings another frame to the callback. */
  ghost predicate Starved(c: Camera) {
    forall es :: OnlyFrames(es) ==> Run(c, es).inCallback == None
  }

  lemma {:induction false} Cardinality(s: set<nat>, n: nat)
    requires forall i :: i in s ==> i < n
    ensures |s| <= n && (|s| == n <==> forall i: nat :: i < n ==> i in s)
  {
    if n > 0 {
      var k: nat := n - 1;
      Cardinality(s - {k}, k);
      assert s == if k in s then (s - {k}) + {k} else s - {k};
    }
  }

  /** With a buffer not lost and no callback running, the driver holds one. */
  lemma DriverHolds(c: Camera, lost: set<nat>)
    requires Coherent(c) && Accounted(c, lost) && c.inCallback == None
    ensures |lost| == c.drv.count <==> Owned(c.drv) == []
  {
    Cardinality(lost, c.drv.count);
    if Owned(c.drv) != [] {
      assert Owned(c.drv)[0] in Owned(c.drv);
    }
  }

  lemma {:induction false} StreamStaysOn(c: Camera, es: seq<Event>)
    requires OnlyFrames(es)
    ensures Run(c, es).drv.streaming == c.drv.streaming
    decreases |es|
  {
    if es != [] {
      StreamStaysOn(Step(c, es[0]), es[1..]);
    }
  }

  /** Frame events do nothing to a driver without buffers. */
  lemma {:induction false} NothingHappens(c: Camera, es: seq<Event>)
    requires Owned(c.drv) == [] && c.inCallback == None && OnlyFrames(es)
    ensures Run(c, es) == c
    decreases |es|
  {
    if es != [] {
      assert c.drv.incoming == [] && c.drv.done == [];
      assert Step(c, es[0]) == c;
      NothingHappens(c, es[1..]);
    }
  }

  /** A buffer the driver holds is filled and brought to the callback. */
  lemma FrameArrives(c: Camera)
    requires Coherent(c) && c.drv.streaming && c.inCallback == None && Owned(c.drv) != []
    ensures Step(Step(c, FrameFilled), BeginFrame(true, true, 0, 0)).inCallback.Some?
    ensures Run(c, [FrameFilled, BeginFrame(true, true, 0, 0)]).inCallback.Some?
  {
    var es := [FrameFilled, BeginFrame(true, true, 0, 0)];
    StepKeepsCoherent(c, FrameFilled);
    var c1 := Step(c, FrameFilled);
    assert c1.drv.done[0] in Owned(c1.drv);
    assert es[1..] == [BeginFrame(true, true, 0, 0)] && es[1..][1..] == [];
    assert Run(c, es) == Step(c1, BeginFrame(true, true, 0, 0));
  }

  /**
   The callback never runs again, until a restart, exactly once every buffer has been lost to an
   exception or a failed requeue; the frame events then change nothing at all.
   */
  lemma Starvation(c: Camera, es: seq<Event>)
    requires Coherent(c) && Accounted(c, {}) && c.drv.streaming && OnlyFrames(es)
    ensures Starved(Run(c, es)) <==> Losses(c, es) == c.drv.count
    ensures Losses(c, es) == c.drv.count ==> forall more :: OnlyFrames(more) ==> Run(Run(c, es), more) == Run(c, es)
  {
    var c', lost := Run(c, es), Lost(c, es, {});
    EveryRunCoherent(c, es);
    Circulation(c, es, {});
    StreamStaysOn(c, es);
    Cardinality(lost, c'.drv.count);
    if c'.inCallback.Some? {
      assert Run(c', []) == c';
    } else {
      DriverHolds(c', lost);
      if Owned(c'.drv) == [] {
        forall more | OnlyFrames(more)
          ensures Run(c', more) == c'
        {
          NothingHappens(c', more);
        }
      } else {
        FrameArrives(c');
      }
    }
  }

  /** n frames in a row whose callback throws. */
  function ThrowingFrames(n: nat): seq<Event> {
    if n == 0 then [] else [FrameFilled, BeginFrame(true, true, 0, 0), CallbackThrows] + ThrowingFrames(n - 1)
  }

  /** The camera after one such frame. */
  function AfterThrow(c: Camera): Camera {
    Step(Step(Step(c, FrameFilled), BeginFrame(true, true, 0, 0)), CallbackThrows)
  }

  lemma FrameStep(c: Camera, e: Event, lost: set<nat>)
    requires Coherent(c) && Accounted(c, lost) && FrameEvent(e)
    ensures var c' := Step(c, e);
            && Coherent(c') && c'.drv.count == c.drv.count && c'.drv.streaming == c.drv.streaming
            && Accounted(c', if Loses(c, e) then lost + {c.inCallback.value} else lost)
    ensures Loses(c, e) ==> c.inCallback.value !in lost
  {
    StepKeepsCoherent(c, e);
    StreamingStep(c, e, lost);
  }

  lemma ThrowIn(c: Camera, lost: set<nat>) returns (i: nat)
    requires Coherent(c) && Accounted(c, lost) && c.inCallback.Some?
    ensures c.inCallback == Some(i) && i !in lost
    ensures var c' := Step(c, CallbackThrows);
            && Coherent(c') && Accounted(c', lost + {i}) && c'.drv == c.drv && c'.inCallback == None
  {
    i := c.inCallback.value;
    FrameStep(c, CallbackThrows, lost);
  }

  lemma ThrowOnce(c: Camera, lost: set<nat>) returns (i: nat)
    requires Coherent(c) && Accounted(c, lost) && c.drv.streaming && c.inCallback == None && |lost| < c.drv.count
    ensures Coherent(AfterThrow(c)) && Accounted(AfterThrow(c), lost + {i}) && i !in lost
    ensures AfterThrow(c).drv.streaming && AfterThrow(c).inCallback == None
    ensures AfterThrow(c).drv.count == c.drv.count
    ensures Step(Step(c, FrameFilled), BeginFrame(true, true, 0, 0)).inCallback == Some(i)
  {
    DriverHolds(c, lost);
    FrameArrives(c);
    FrameStep(c, FrameFilled, lost);
    var c1 := Step(c, FrameFilled);
    FrameStep(c1, BeginFrame(true, true, 0, 0), lost);
    i := ThrowIn(Step(c1, BeginFrame(true, true, 0, 0)), lost);
  }

  lemma LossesCons(c: Camera, e: Event, es: seq<Event>)
    ensures Losses(c, [e] + es) == (if Loses(c, e) then 1 else 0) + Losses(Step(c, e), es)
  {
    assert ([e] + es)[1..] == es;
  }

  lemma ThrowingFirst(c: Camera, n: nat)
    requires n > 0 && c.inCallback == None
    requires Step(Step(c, FrameFilled), BeginFrame(true, true, 0, 0)).inCallback.Some?
    ensures Losses(c, ThrowingFrames(n)) == 1 + Losses(AfterThrow(c), ThrowingFrames(n - 1))
  {
    var begin, rest := BeginFrame(true, true, 0, 0), ThrowingFrames(n - 1);
    var c1 := Step(c, FrameFilled);
    LossesCons(c, FrameFilled, [begin] + ([CallbackThrows] + rest));
    LossesCons(c1, begin, [CallbackThrows] + rest);
    LossesCons(Step(c1, begin), CallbackThrows, rest);
    assert ThrowingFrames(n) == [FrameFilled] + ([begin] + ([CallbackThrows] + rest));
  }

  /** As long as buffers are left, each such frame loses one. */
  lemma {:induction false} ThrowingLoses(c: Camera, n: nat, lost: set<nat>)
    requires Coherent(c) && Accounted(c, lost) && c.drv.streaming && c.inCallback == None
    requires |lost| + n <= c.drv.count
    ensures OnlyFrames(ThrowingFrames(n)) && Losses(c, ThrowingFrames(n)) == n
    decreases n
  {
    if n > 0 {
      var i := ThrowOnce(c, lost);
      ThrowingFirst(c, n);
      ThrowingLoses(AfterThrow(c), n - 1, lost + {i});
    }
  }

  /** As many exceptions in a row as there are buffers starve the stream. */
  lemma ExceptionsStarve(c: Camera)
    requires Coherent(c) && Accounted(c, {}) && c.drv.streaming && c.inCallback == None
    ensures Starved(Run(c, ThrowingFrames(c.drv.count)))
    ensures forall n: nat :: n < c.drv.count ==> !Starved(Run(c, ThrowingFrames(n)))
  {
    forall n: nat | n <= c.drv.count
      ensures Starved(Run(c, ThrowingFrames(n))) <==> n == c.drv.count
    {
      ThrowingLoses(c, n, {});
      Starvation(c, ThrowingFrames(n));
    }
  }

  // ---- Stopping and starting again ----

  function Upto(n: nat): seq<nat> {
    seq(n, i => i)
  }

  lemma UptoHolds(n: nat, i: nat)
    ensures i in Upto(n) <==> i < n
  {
    assert i < n ==> Upto(n)[i] == i;
  }

  lemma {:induction false} StartLoopQueues(c: Camera, i: nat)
    requires Coherent(c) && i <= c.drv.count && c.drv.incoming == Upto(i) && c.drv.done == []
    ensures var (c', ok) := StartLoop(c, i, None);
            && ok && c'.drv == c.drv.(incoming := Upto(c.drv.count))
            && c'.inCallback == c.inCallback && c'.bufs.Keys == c.bufs.Keys
            && (forall k :: k in c.bufs ==> c'.bufs[k] == if k < i then c.bufs[k] else Reset(c.bufs[k]))
    decreases c.drv.count - i
  {
    if i < c.drv.count {
      UptoHolds(i, i);
      assert Owned(c.drv) == Upto(i);
      var c1 := Turn(c, i, true).0;
      assert c1.drv.incoming == Upto(i + 1);
      TurnKeeps(c, i, true);
      StartLoopQueues(c1, i + 1);
    }
  }

  /** The rest of the loop completes exactly when the driver holds none of the buffers still to come. */
  lemma {:induction false} StartCompletes(c: Camera, i: nat)
    requires Coherent(c)
    ensures StartLoop(c, i, None).1 <==> forall x :: x in Owned(c.drv) ==> x < i
    decreases c.drv.count - i
  {
    if i < c.drv.count {
      TurnKeeps(c, i, true);
      StartCompletes(Turn(c, i, true).0, i + 1);
    }
  }

  /** A start is accepted exactly when the driver holds no buffer. */
  lemma StartAccepted(c: Camera)
    requires Coherent(c)
    ensures StartLoop(c, 0, None).1 <==> Owned(c.drv) == []
  {
    StartCompletes(c, 0);
    if Owned(c.drv) != [] {
      assert Owned(c.drv)[0] in Owned(c.drv);
    }
  }

  lemma {:induction false} StartLoopFails(c: Camera, i: nat, k: nat)
    requires Coherent(c) && i <= k < c.drv.count && c.drv.incoming == Upto(i) && c.drv.done == []
    ensures var (c', ok) := StartLoop(c, i, Some(k));
            && !ok && c'.drv == c.drv.(incoming := Upto(k))
            && c'.inCallback == c.inCallback && c'.bufs.Keys == c.bufs.Keys
            && (forall j :: j in c.bufs ==>
                  c'.bufs[j] == if i <= j <= k then Buf(j, CAPTURE, MMAP, 0, 0) else c.bufs[j])
    decreases k - i
  {
    UptoHolds(i, i);
    assert Owned(c.drv) == Upto(i);
    TurnKeeps(c, i, k != i);
    if i < k {
      var c1 := Turn(c, i, true).0;
      assert c1.drv.incoming == Upto(i + 1);
      StartLoopFails(c1, i + 1, k);
    }
  }

  /**
   A start that fails at buffer k leaves the stream off, the buffers before k queued and the buffers
   after it untouched; one that fails at STREAMON leaves all queued. Either way the next start is
   refused unless a stop comes first.
   */
  lemma FailedStart(c: Camera, k: nat)
    requires Coherent(c) && Owned(c.drv) == [] && !c.drv.streaming && k < c.drv.count
    ensures var c' := Step(c, StartStreaming(Some(k), true));
            && c'.drv == Driver(c.drv.count, Upto(k), [], false)
            && c'.bufs.Keys == c.bufs.Keys && (forall j :: j in c.bufs && j > k ==> c'.bufs[j] == c.bufs[j])
            && (StartLoop(c', 0, None).1 <==> k == 0)
    ensures var c' := Step(c, StartStreaming(None, false));
            c'.drv == Driver(c.drv.count, Upto(c.drv.count), [], false) && !StartLoop(c', 0, None).1
  {
    assert Upto(0) == [] && c.drv.incoming == [] && c.drv.done == [];
    StartLoopFails(c, 0, k);
    StartLoopQueues(c, 0);
    StepKeepsCoherent(c, StartStreaming(Some(k), true));
    StepKeepsCoherent(c, StartStreaming(None, false));
    var c1, c2 := Step(c, StartStreaming(Some(k), true)), Step(c, StartStreaming(None, false));
    assert Owned(c1.drv) == Upto(k) && Owned(c2.drv) == Upto(c.drv.count);
    assert |Upto(k)| == k && |Upto(c.drv.count)| == c.drv.count;
    StartAccepted(c1);
    StartAccepted(c2);
  }

  /** An accepted start leaves every buffer in the driver's queue, in order, and nothing lost. */
  lemma StartRecovers(c: Camera)
    requires Coherent(c) && Owned(c.drv) == []
    ensures var c' := Step(c, StartStreaming(None, true));
            && c'.drv == Driver(c.drv.count, Upto(c.drv.count), [], true)
            && c'.bufs.Keys == c.bufs.Keys && c'.inCallback == c.inCallback
            && (forall k :: k in c.bufs ==> c'.bufs[k] == Reset(c.bufs[k]))
            && Coherent(c') && (c.inCallback == None ==> Accounted(c', {}))
  {
    assert Upto(0) == [] && c.drv.incoming == [] && c.drv.done == [];
    StartLoopQueues(c, 0);
    StepKeepsCoherent(c, StartStreaming(None, true));
    var d := Step(c, StartStreaming(None, true)).drv;
    assert Owned(d) == Upto(d.count);
    forall i: nat
      ensures i < d.count <==> i in Owned(d)
    {
      UptoHolds(d.count, i);
    }
  }

  /** The first start, on the table that `init` leaves. */
  lemma FirstStart(count: nat)
    ensures var c := Camera(map i: nat | i < count :: Buf(i, CAPTURE, MMAP, 0, 0), Driver(count, [], [], false), None);
            var c' := Step(c, StartStreaming(None, true));
            Coherent(c) && StartLoop(c, 0, None).1 && Coherent(c') && Accounted(c', {})
  {
    var c := Camera(map i: nat | i < count :: Buf(i, CAPTURE, MMAP, 0, 0), Driver(count, [], [], false), None);
    assert Owned(c.drv) == [];
    StartAccepted(c);
    StartRecovers(c);
  }

  // ---- Frames in turn ----

  /** One frame from the device through a callback that returns. */
  function AfterFrame(c: Camera): Camera {
    Step(Step(Step(c, FrameFilled), BeginFrame(true, true, 0, 0)), CallbackReturns(true))
  }

  function AfterFrames(c: Camera, k: nat): Camera {
    if k == 0 then c else AfterFrame(AfterFrames(c, k - 1))
  }

  /** The queue k frames after a start. */
  function Rotated(n: nat, k: nat): seq<nat>
    requires n > 0
  {
    seq(n, i requires i >= 0 => (k + i) % n)
  }

  lemma RotatedHead(n: nat, k: nat)
    requires n > 0
    ensures Rotated(n, k) != [] && Rotated(n, k)[0] == k % n
  {
  }

  lemma RotateOnce(n: nat, k: nat)
    requires n > 0
    ensures Rotated(n, k)[1..] + [Rotated(n, k)[0]] == Rotated(n, k + 1)
  {
    ModAddMultiple(k, 1, n);
  }

  lemma FrameInTurn(c: Camera)
    requires Coherent(c) && c.drv.streaming && c.inCallback == None && c.drv.done == [] && c.drv.incoming != []
    ensures Step(Step(c, FrameFilled), BeginFrame(true, true, 0, 0)).inCallback == Some(c.drv.incoming[0])
    ensures var c' := AfterFrame(c);
            && Coherent(c') && c'.inCallback == None
            && c'.drv == c.drv.(incoming := c.drv.incoming[1..] + [c.drv.incoming[0]])
  {
    var c1 := Step(c, FrameFilled);
    StepKeepsCoherent(c, FrameFilled);
    FrameTaken(c1, true, true, 0, 0);
    DqbufKeeps(c1.drv, true);
    var c2 := Step(c1, BeginFrame(true, true, 0, 0));
    StepKeepsCoherent(c1, BeginFrame(true, true, 0, 0));
    FrameReturned(c2, true);
    StepKeepsCoherent(c2, CallbackReturns(true));
  }

  /** At rest k frames after a start. */
  ghost predicate InTurn(c: Camera, n: nat, k: nat)
    requires n > 0
  {
    Coherent(c) && c.inCallback == None && c.drv == Driver(n, Rotated(n, k), [], true)
  }

  lemma RotatedStart(n: nat)
    requires n > 0
    ensures Rotated(n, 0) == Upto(n)
  {
    forall i | 0 <= i < n
      ensures Rotated(n, 0)[i] == Upto(n)[i]
    {
      DivUnique(i, n, 0, i);
    }
  }

  lemma StartInTurn(c: Camera)
    requires Coherent(c) && Owned(c.drv) == [] && c.inCallback == None && c.drv.count > 0
    ensures InTurn(Step(c, StartStreaming(None, true)), c.drv.count, 0)
  {
    StartRecovers(c);
    RotatedStart(c.drv.count);
  }

  lemma NextInTurn(c: Camera, n: nat, k: nat)
    requires n > 0 && InTurn(c, n, k)
    ensures InTurn(AfterFrame(c), n, k + 1)
    ensures Step(Step(c, FrameFilled), BeginFrame(true, true, 0, 0)).inCallback == Some(k % n)
  {
    RotatedHead(n, k);
    FrameInTurn(c);
    RotateOnce(n, k);
  }

  lemma {:induction false} FramesRotate(c: Camera, n: nat, k: nat)
    requires n > 0 && InTurn(c, n, 0)
    ensures InTurn(AfterFrames(c, k), n, k)
  {
    if k > 0 {
      FramesRotate(c, n, k - 1);
      NextInTurn(AfterFrames(c, k - 1), n, k - 1);
    }
  }

  /** After a start the buffers take turns: frame k, counted from zero, is delivered in buffer k modulo their number. */
  lemma RoundRobin(c: Camera, k: nat)
    requires Coherent(c) && Owned(c.drv) == [] && c.inCallback == None && c.drv.count > 0
    ensures var c' := AfterFrames(Step(c, StartStreaming(None, true)), k);
            Step(Step(c', FrameFilled), BeginFrame(true, true, 0, 0)).inCallback == Some(k % c.drv.count)
  {
    var c1 := Step(c, StartStreaming(None, true));
    StartInTurn(c);
    FramesRotate(c1, c.drv.count, k);
    NextInTurn(AfterFrames(c1, k), c.drv.count, k);
  }

  // ---- Stopping and starting around a callback ----

  /** The event that ends the running callback, if the run has one. */
  function FirstEnd(es: seq<Event>): Option<Event> {
    if es == [] then None
    else if es[0].CallbackReturns? || es[0].CallbackThrows? then Some(es[0])
    else FirstEnd(es[1..])
  }

  /** While the stream is off, the only thing that reaches the driver is the requeue of a running callback. */
  lemma {:induction false} WhileStopped(c: Camera, es: seq<Event>)
    requires Coherent(c) && !c.drv.streaming && Owned(c.drv) == []
    requires OnlyFrames(es)
    ensures Owned(Run(c, es).drv) == [] <==> c.inCallback.None? || FirstEnd(es) != Some(CallbackReturns(true))
    decreases |es|
  {
    if es != [] {
      var c' := Step(c, es[0]);
      StepKeepsCoherent(c, es[0]);
      assert c.drv.incoming == [] && c.drv.done == [];
      if c.inCallback.Some? && es[0] == CallbackReturns(true) {
        var i := c.inCallback.value;
        assert c'.drv.incoming == [i];
        StaysOwned(c', es[1..], i);
        assert i in Owned(Run(c', es[1..]).drv);
      } else {
        WhileStopped(c', es[1..]);
      }
    }
  }

  lemma {:induction false} StaysOwned(c: Camera, es: seq<Event>, i: nat)
    requires Coherent(c) && !c.drv.streaming && i in Owned(c.drv)
    requires OnlyFrames(es)
    ensures i in Owned(Run(c, es).drv)
    decreases |es|
  {
    if es != [] {
      StepKeepsCoherent(c, es[0]);
      if es[0].CallbackReturns? && c.inCallback.Some? {
        var b := Reset(c.bufs[c.inCallback.value]);
        if Qbuf(c.drv, b, es[0].ok).Some? {
          QbufKeeps(c.drv, b, es[0].ok);
        }
      }
      StaysOwned(Step(c, es[0]), es[1..], i);
    }
  }

  /**
   From any coherent state, a stop and, after anything but another start or stop, a start: the
   start is accepted exactly when no callback that was running at the stop requeued its buffer in
   between.
   */
  lemma RestartAccepted(c: Camera, es: seq<Event>)
    requires Coherent(c) && OnlyFrames(es)
    ensures var c1 := Run(Step(c, StopStreaming(true)), es);
            && Coherent(c1) && c1.drv.count == c.drv.count && !c1.drv.streaming
            && (StartLoop(c1, 0, None).1 <==> Owned(c1.drv) == [])
            && (StartLoop(c1, 0, None).1 <==> c.inCallback.None? || FirstEnd(es) != Some(CallbackReturns(true)))
  {
    var c0 := Step(c, StopStreaming(true));
    StepKeepsCoherent(c, StopStreaming(true));
    assert Owned(c0.drv) == [];
    WhileStopped(c0, es);
    EveryRunCoherent(c0, es);
    StaysStopped(c0, es);
    StartAccepted(Run(c0, es));
  }

  /** With the same table, cleared metadata is the same metadata. */
  lemma ResetAgrees(c: Camera, c': Camera)
    requires Coherent(c) && Coherent(c') && c.drv.count == c'.drv.count
    ensures c.bufs.Keys == c'.bufs.Keys && forall k :: k in c.bufs ==> Reset(c.bufs[k]) == Reset(c'.bufs[k])
  {
  }

  /**
   An accepted restart puts every buffer, whatever was lost, back in the driver's queue, in order,
   with its index, type and memory kind unchanged; a refused one leaves the stream off.
   */
  lemma RestartRecovers(c: Camera, es: seq<Event>)
    requires Coherent(c) && OnlyFrames(es)
    ensures var c1 := Run(Step(c, StopStreaming(true)), es);
            var c2 := Step(c1, StartStreaming(None, true));
            if c.inCallback.None? || FirstEnd(es) != Some(CallbackReturns(true)) then
              && c2.drv == Driver(c.drv.count, Upto(c.drv.count), [], true)
              && c2.bufs.Keys == c.bufs.Keys && (forall k :: k in c.bufs ==> c2.bufs[k] == Reset(c.bufs[k]))
              && (c1.inCallback == None ==> Accounted(c2, {}))
            else !c2.drv.streaming
  {
    RestartAccepted(c, es);
    var c1 := Run(Step(c, StopStreaming(true)), es);
    if Owned(c1.drv) == [] {
      StartRecovers(c1);
      ResetAgrees(c, c1);
    } else {
      StartLoopStopped(c1, 0);
    }
  }

  lemma {:induction false} StaysStopped(c: Camera, es: seq<Event>)
    requires !c.drv.streaming && OnlyFrames(es)
    ensures !Run(c, es).drv.streaming
    decreases |es|
  {
    if es != [] {
      StaysStopped(Step(c, es[0]), es[1..]);
    }
  }

  lemma {:induction false} StartLoopStopped(c: Camera, i: nat)
    ensures StartLoop(c, i, None).0.drv.streaming == c.drv.streaming
    decreases c.drv.count - i
  {
    if i < c.drv.count && i in c.bufs {
      StartLoopStopped(Turn(c, i, true).0, i + 1);
    }
  }

  lemma {:induction false} RunSnoc(c: Camera, es: seq<Event>, e: Event)
    ensures Run(c, es + [e]) == Step(Run(c, es), e)
    decreases |es|
  {
    if es == [] {
      assert [] + [e] == [e] && [e][1..] == [];
    } else {
      assert (es + [e])[1..] == es[1..] + [e];
      RunSnoc(Step(c, es[0]), es[1..], e);
    }
  }

  /** The first j turns of a start, one by one. */
  function Turns(j: nat): seq<Event> {
    if j == 0 then [] else Turns(j - 1) + [QueueTurn(j - 1, true)]
  }

  /** The state after j turns: the first j buffers are queued, and the loop goes on from there. */
  ghost predicate QueuedTo(c: Camera, c': Camera, j: nat) {
    && Coherent(c') && c'.drv.count == c.drv.count && c'.inCallback == c.inCallback
    && (forall x: nat :: x in Owned(c'.drv) <==> x < j)
    && StartLoop(c, 0, None) == StartLoop(c', j, None)
  }

  lemma QueuedNext(c: Camera, c': Camera, j: nat)
    requires QueuedTo(c, c', j) && j < c.drv.count
    ensures QueuedTo(c, Step(c', QueueTurn(j, true)), j + 1)
  {
    TurnKeeps(c', j, true);
  }

  lemma {:induction false} TurnsQueue(c: Camera, j: nat)
    requires Coherent(c) && Owned(c.drv) == [] && j <= c.drv.count
    ensures QueuedTo(c, Run(c, Turns(j)), j)
  {
    if j > 0 {
      var i: nat := j - 1;
      TurnsQueue(c, i);
      assert Turns(j) == Turns(i) + [QueueTurn(i, true)];
      RunSnoc(c, Turns(i), QueueTurn(i, true));
      QueuedNext(c, Run(c, Turns(i)), i);
    }
  }

  /** Undisturbed, a start is its turns one by one. */
  lemma StartIsTurns(c: Camera)
    requires Coherent(c) && Owned(c.drv) == []
    ensures StartLoop(c, 0, None) == (Run(c, Turns(c.drv.count)), true)
  {
    TurnsQueue(c, c.drv.count);
  }

  lemma ReturnKeeps(c: Camera)
    requires Coherent(c) && c.inCallback.Some?
    ensures var c' := Step(c, CallbackReturns(true));
            && Coherent(c') && c'.drv.count == c.drv.count
            && (forall x :: x in Owned(c'.drv) <==> x in Owned(c.drv) || x == c.inCallback.value)
            && (c'.drv == c.drv <==> c.inCallback.value in Owned(c.drv))
  {
    StepKeepsCoherent(c, CallbackReturns(true));
    var b := Reset(c.bufs[c.inCallback.value]);
    if Qbuf(c.drv, b, true).Some? {
      QbufKeeps(c.drv, b, true);
    }
  }

  /**
   A callback running at the stop that returns inside the start, after its first j turns: the
   start completes exactly when it had queued that buffer itself, and the requeue is then refused.
   */
  lemma ReturnInsideStart(c: Camera, j: nat)
    requires Coherent(c) && c.inCallback.Some? && j <= c.drv.count
    ensures var c1 := Run(Step(c, StopStreaming(true)), Turns(j));
            var c2 := Step(c1, CallbackReturns(true));
            && (StartLoop(c2, j, None).1 <==> c.inCallback.value < j)
            && (c2.drv == c1.drv <==> c.inCallback.value < j)
  {
    var i: nat := c.inCallback.value;
    var c0 := Step(c, StopStreaming(true));
    StepKeepsCoherent(c, StopStreaming(true));
    assert Owned(c0.drv) == [];
    TurnsQueue(c0, j);
    var c1 := Run(c0, Turns(j));
    ReturnKeeps(c1);
    StartCompletes(Step(c1, CallbackReturns(true)), j);
  }

  /**
   A restart under a running callback leaves its buffer queued and held at once, with its metadata
   cleared under the callback; the requeue is then refused.
   */
  lemma RestartDuringCallback(c: Camera, ok: bool)
    requires Coherent(c) && c.inCallback.Some?
    ensures var c' := Step(Step(c, StopStreaming(true)), StartStreaming(None, true));
            && c'.drv.streaming && c'.inCallback == c.inCallback && c.inCallback.value in Owned(c'.drv)
            && Step(c', CallbackReturns(ok)).drv == c'.drv
            && c.inCallback.value in c'.bufs
            && c'.bufs[c.inCallback.value] == Buf(c.inCallback.value, CAPTURE, MMAP, 0, 0)
  {
    StepKeepsCoherent(c, StopStreaming(true));
    StartRecovers(Step(c, StopStreaming(true)));
    UptoHolds(c.drv.count, c.inCallback.value);
  }

  // ---- The class ----

  class MmapBuffer {
    const idx: nat
    var buf: Buf

    constructor (buf: Buf, idx: nat)
      ensures this.buf == buf && this.idx == idx
    {
      this.buf := buf;
      this.idx := idx;
    }

    method ResetBuf()
      modifies this
      ensures buf == Reset(old(buf)) && buf.bytesUsed == 0 && buf.sequence == 0
      ensures buf.index == old(buf.index) && buf.kind == old(buf.kind) && buf.memory == old(buf.memory)
    {
      var temp := buf;
      buf := Buf(temp.index, temp.kind, temp.memory, 0, 0);
    }
  }

  datatype Callback = Absent | Returns | Throws

  datatype FrameResult = Ok | Failed | Threw

  /** The driver takes back the buffer of the running callback. */
  predicate Requeues(c: Camera, ok: bool) {
    && c.inCallback.Some? && c.inCallback.value in c.bufs
    && Qbuf(c.drv, Reset(c.bufs[c.inCallback.value]), ok).Some?
  }

  class AlviumV4l2 {
    var bufByIdx: map<nat, MmapBuffer>
    var drv: Driver
    var inCallback: Option<nat>

    ghost function View(): Camera
      reads this, bufByIdx.Values
    {
      Camera(map i | i in bufByIdx :: bufByIdx[i].buf, drv, inCallback)
    }

    ghost predicate Valid()
      reads this, bufByIdx.Values
    {
      (forall i :: i in bufByIdx ==> bufByIdx[i].idx == i) && Coherent(View())
    }

    constructor ()
      ensures Valid() && bufByIdx == map[] && inCallback == None && drv == Driver(0, [], [], false)
    {
      bufByIdx, drv, inCallback := map[], Driver(0, [], [], false), None;
    }

    /** The table holds buffers 0 to n - 1, each as mapping leaves it. */
    ghost predicate HoldsFresh(n: nat)
      reads this, bufByIdx.Values
    {
      && (forall k: nat :: k in bufByIdx <==> k < n)
      && (forall k :: k in bufByIdx ==> bufByIdx[k].idx == k && bufByIdx[k].buf == Buf(k, CAPTURE, MMAP, 0, 0))
    }

    lemma FreshTable(count: nat)
      requires HoldsFresh(count) && drv == Driver(count, [], [], false) && inCallback == None
      ensures Valid()
      ensures View() == Camera(map i: nat | i < count :: Buf(i, CAPTURE, MMAP, 0, 0), drv, None)
    {
    }

    /**
     The buffer loop of `init`: `count` buffers were granted, and `mapped(i)` tells whether
     querying and mapping buffer i works.
     */
    method Init(count: nat, mapped: nat -> bool) returns (ok: bool)
      requires bufByIdx == map[] && inCallback == None
      modifies this
      ensures ok <==> count > 0 && forall i: nat :: i < count ==> mapped(i)
      ensures ok ==> Valid() && fresh(bufByIdx.Values)
      ensures ok ==> View() == Camera(map i: nat | i < count :: Buf(i, CAPTURE, MMAP, 0, 0),
                                      Driver(count, [], [], false), None)
    {
      drv := Driver(count, [], [], false);
      if count == 0 {
        return false;
      }
      var i := 0;
      while i < count
        invariant 0 <= i <= count && drv == Driver(count, [], [], false) && inCallback == None
        invariant HoldsFresh(i) && forall k :: k in bufByIdx ==> fresh(bufByIdx[k])
        invariant forall k: nat :: k < i ==> mapped(k)
      {
        if !mapped(i) {
          return false;
        }
        var b := new MmapBuffer(Buf(i, CAPTURE, MMAP, 0, 0), i);
        bufByIdx := bufByIdx[i := b];
        i := i + 1;
      }
      FreshTable(count);
      ok := true;
    }

    /** Clear one buffer's metadata; no other buffer is touched. */
    method ResetAt(i: nat)
      requires Valid() && i in bufByIdx
      modifies bufByIdx[i]
      ensures Valid() && View() == old(View()).(bufs := old(View()).bufs[i := Reset(old(View()).bufs[i])])
    {
      ghost var before := View();
      bufByIdx[i].ResetBuf();
      assert forall k :: k in bufByIdx && k != i ==> bufByIdx[k] != bufByIdx[i];
      assert View().bufs == before.bufs[i := Reset(before.bufs[i])];
    }

    /** One ioctl; only the driver's state can change. */
    method QueueAt(i: nat, ok: bool) returns (queued: bool)
      requires Valid() && i in bufByIdx
      modifies this`drv
      ensures Valid()
      ensures var q := Qbuf(old(drv), old(View()).bufs[i], ok);
              queued == q.Some? && View() == old(View()).(drv := if q.Some? then q.value else old(drv))
    {
      var q := Qbuf(drv, bufByIdx[i].buf, ok);
      queued := q.Some?;
      if q.Some? {
        QbufKeeps(drv, bufByIdx[i].buf, ok);
        drv := q.value;
      }
    }

    /** One turn of the queueing loop. */
    method TurnAt(i: nat, ok: bool) returns (queued: bool)
      requires Valid() && i in bufByIdx
      modifies this`drv, bufByIdx[i]
      ensures Valid() && (View(), queued) == Turn(old(View()), i, ok)
    {
      ResetAt(i);
      queued := QueueAt(i, ok);
    }

    /** The loop of `start_streaming`. */
    method QueueAll(failAt: Option<nat>) returns (queued: bool)
      requires Valid()
      modifies this`drv, bufByIdx.Values
      ensures Valid() && (View(), queued) == StartLoop(old(View()), 0, failAt)
    {
      var i := 0;
      ghost var goal := StartLoop(View(), 0, failAt);
      while i < drv.count
        invariant Valid() && StartLoop(View(), i, failAt) == goal
        decreases drv.count - i
      {
        queued := TurnAt(i, failAt != Some(i));
        if !queued {
          return;
        }
        i := i + 1;
      }
      queued := true;
    }

    method StreamOn()
      requires Valid()
      modifies this`drv
      ensures Valid() && View() == old(View()).(drv := old(drv).(streaming := true))
    {
      assert Owned(drv.(streaming := true)) == Owned(drv);
      drv := drv.(streaming := true);
    }

    method StartStreaming(failAt: Option<nat>, onOk: bool) returns (ok: bool)
      requires Valid()
      modifies this`drv, bufByIdx.Values
      ensures Valid() && View() == Step(old(View()), Event.StartStreaming(failAt, onOk))
      ensures ok <==> StartLoop(old(View()), 0, failAt).1 && onOk
    {
      var queued := QueueAll(failAt);
      if !queued || !onOk {
        return false;
      }
      StreamOn();
      ok := true;
    }

    method StopStreaming(offOk: bool) returns (ok: bool)
      requires Valid()
      modifies this`drv
      ensures Valid() && View() == Step(old(View()), Event.StopStreaming(offOk)) && ok == offOk
      ensures drv == if offOk then Driver(old(drv.count), [], [], false) else old(drv)
    {
      if offOk {
        drv := StreamOff(drv);
      }
      ok := offOk;
    }

    /** DQBUF and the metadata update of `wait_for_frame`, up to the point where the callback is entered. */
    method TakeFrame(ready: bool, dqOk: bool, bytesUsed: nat, sequence: nat) returns (failed: bool)
      requires Valid() && inCallback == None
      modifies this`drv, this`inCallback, bufByIdx.Values
      ensures Valid() && bufByIdx == old(bufByIdx)
      ensures View() == Step(old(View()), BeginFrame(ready, dqOk, bytesUsed, sequence))
      ensures failed <==> ready && inCallback == None
    {
      if !ready {
        return false;
      }
      var taken := Dqbuf(drv, dqOk);
      if taken.None? {
        return true;
      }
      DqbufKeeps(drv, dqOk);
      ghost var before := View();
      var (i, d) := taken.value;
      drv := d;
      if i !in bufByIdx {
        return true;
      }
      bufByIdx[i].buf := Buf(i, CAPTURE, MMAP, bytesUsed, sequence);
      inCallback := Some(i);
      assert forall k :: k in bufByIdx && k != i ==> bufByIdx[k] != bufByIdx[i];
      assert View().bufs == before.bufs[i := Buf(i, CAPTURE, MMAP, bytesUsed, sequence)];
      failed := false;
    }

    /** The callback is over, one way or the other. */
    method LeaveCallback() returns (i: nat)
      requires Valid() && inCallback.Some?
      modifies this`inCallback
      ensures Valid() && View() == old(View()).(inCallback := None)
      ensures i == old(inCallback.value) && i in bufByIdx
    {
      assert inCallback.value in View().bufs;
      i := inCallback.value;
      inCallback := None;
    }

    /** The buffer goes back to the driver. */
    method ReturnFrame(qOk: bool) returns (queued: bool)
      requires Valid() && inCallback.Some?
      modifies this`drv, this`inCallback, bufByIdx.Values
      ensures Valid() && bufByIdx == old(bufByIdx)
      ensures View() == Step(old(View()), CallbackReturns(qOk))
      ensures queued <==> Requeues(old(View()), qOk)
    {
      var i := LeaveCallback();
      ResetAt(i);
      queued := QueueAt(i, qOk);
    }

    /** `wait_for_frame` as the worker calls it: one frame, from select to requeue or exception. */
    method WaitForFrame(ready: bool, dqOk: bool, bytesUsed: nat, sequence: nat, cb: Callback, qOk: bool)
      returns (r: FrameResult)
      requires Valid() && inCallback == None
      modifies this`drv, this`inCallback, bufByIdx.Values
      ensures Valid() && bufByIdx == old(bufByIdx)
      ensures var c1 := Step(old(View()), BeginFrame(ready, dqOk, bytesUsed, sequence));
              View() == if c1.inCallback.None? then c1
                        else Step(c1, if cb.Throws? then CallbackThrows else CallbackReturns(qOk))
      ensures var c1 := Step(old(View()), BeginFrame(ready, dqOk, bytesUsed, sequence));
              r == if !ready then Ok
                   else if c1.inCallback.None? then Failed
                   else if cb.Throws? then Threw
                   else if Requeues(c1, qOk) then Ok else Failed
    {
      var failed := TakeFrame(ready, dqOk, bytesUsed, sequence);
      if failed {
        return Failed;
      }
      if inCallback.None? {
        return Ok;
      }
      if cb.Throws? {
        var _ := LeaveCallback();
        return Threw;
      }
      var queued := ReturnFrame(qOk);
      r := if queued then Ok else Failed;
    }
  }
}
