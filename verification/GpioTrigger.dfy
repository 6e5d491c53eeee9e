/**
 The camera trigger kernel module, modules/opaleye_gpio/opaleye_gpio_main.c: two periodic
 timers that raise and lower the camera pins, and the two sysfs writes that control them.
 Writes are serialised, as the module's mutex intends; times are nanoseconds of CLOCK_REALTIME.
 */
module GpioTrigger {
  import opened CInt
  import opened Chrono
  import opened DecimalText
  import opened TriggerText
  import opened Wrappers

  datatype State = State(
    enabled: bool,
    cfg: Settings,
    on: Option<int>,   // expiry of the pin-on timer, if armed
    off: Option<int>,  // expiry of the pin-off timer, if armed
    cam0: bool,
    cam1: bool)

  const INITIAL := State(false, Settings(0, NSEC_PER_SEC, 100_000_000), None, None, false, false)

  datatype Event =
    | WriteEnable(buf: string, now: int)
    | WriteSettings(buf: string)
    | OnExpire(now: int)
    | OffExpire(now: int)

  // ---- The kernel timer ----

  /** Intervals below the timer resolution of one nanosecond are raised to it. */
  function Grid(period: int): (p: int)
    ensures p >= 1 && (period > 0 ==> p == period)
  {
    if period < 1 then 1 else period
  }

  /** `hrtimer_forward`: skip every whole interval that has passed. */
  function Forward(expires: int, now: int, period: int): int {
    if now < expires then expires
    else expires + ((now - expires) / Grid(period) + 1) * Grid(period)
  }

  /** The next expiry is the one grid point in (now, now + period], however late the callback ran. */
  lemma ForwardGrid(expires: int, now: int, period: int)
    requires expires <= now
    ensures var r := Forward(expires, now, period);
            now < r <= now + Grid(period) && (r - expires) % Grid(period) == 0
  {
    var p := Grid(period);
    var d := now - expires;
    assert (d / p + 1) * p == d - d % p + p by {
      assert d == d / p * p + d % p;
    }
    ModAddMultiple(0, d / p + 1, p);
  }

  lemma ForwardPrompt(expires: int, period: int)
    ensures Forward(expires, expires, period) == expires + Grid(period)
  {
  }

  // ---- One step ----

  /** The first rising edge after enabling at `now`. */
  function StartTime(t0: int, now: int): int {
    if t0 == 0 then
      var next := (now / NSEC_PER_SEC + 1) * NSEC_PER_SEC;
      if ToUint64(next - now) < 250_000_000 then next + NSEC_PER_SEC else next
    else t0
  }

  /** The level an `enable` write asks for, if it parses. */
  function EnableValue(buf: string): Option<bool> {
    var (v, _) :- ScanLong(buf);
    Some(ToInt32(v) != 0)
  }

  function Step(s: State, e: Event): State {
    match e
    case WriteEnable(buf, now) =>
      (match EnableValue(buf)
       case None => s
       case Some(val) =>
         if s.enabled && !val then s.(enabled := false, on := None, off := None)
         else if !s.enabled && val then
           var start := StartTime(s.cfg.t0, now);
           s.(enabled := true, on := Some(start), off := Some(start + s.cfg.width))
         else s)
    case WriteSettings(buf) =>
      (match ParseSettings(buf)
       case None => s
       case Some(cfg) => if s.enabled then s else s.(cfg := cfg))
    case OnExpire(now) =>
      if s.on.None? then s
      else s.(on := Some(Forward(s.on.value, now, s.cfg.period)), cam0 := true, cam1 := true)
    case OffExpire(now) =>
      if s.off.None? then s
      else s.(off := Some(Forward(s.off.value, now, s.cfg.period)), cam0 := false, cam1 := false)
  }

  /** A timer callback runs only while its timer is armed, and never early. */
  predicate Possible(s: State, e: Event) {
    match e
    case OnExpire(now) => s.on.Some? && s.on.value <= now
    case OffExpire(now) => s.off.Some? && s.off.value <= now
    case _ => true
  }

  // ---- The module itself ----

  class GpioModule {
    var enabled: bool
    var t0: int
    var period: int
    var width: int
    var onTimer: Option<int>
    var offTimer: Option<int>
    var csi0: bool
    var csi1: bool

    function View(): State
      reads this
    {
      State(enabled, Settings(t0, period, width), onTimer, offTimer, csi0, csi1)
    }

    constructor ()
      ensures View() == INITIAL
    {
      enabled, t0, period, width := false, 0, NSEC_PER_SEC, 100_000_000;
      onTimer, offTimer, csi0, csi1 := None, None, false, false;
    }

    method EnableStore(buf: string, now: int)
      modifies this
      ensures View() == Step(old(View()), WriteEnable(buf, now))
    {
      var scanned := ScanLong(buf);
      if scanned.Some? {
        var val := ToInt32(scanned.value.0);
        var edge := (if enabled then 1 else 0) + (if val != 0 then 2 else 0);
        if edge == 1 {
          onTimer := None;
          offTimer := None;
        } else if edge == 2 {
          var start := t0;
          if t0 == 0 {
            start := (now / NSEC_PER_SEC + 1) * NSEC_PER_SEC;
            if ToUint64(start - now) < 250_000_000 {
              start := start + NSEC_PER_SEC;
            }
          }
          onTimer := Some(start);
          offTimer := Some(start + width);
        }
        enabled := val != 0;
      }
    }

    method TimerSettingsStore(buf: string)
      modifies this
      ensures View() == Step(old(View()), WriteSettings(buf))
    {
      var scanned := ScanSettings(buf);
      if scanned.Some? {
        var (a, b, c) := scanned.value;
        var t0Ns := NsstrToNs(a.1);
        var periodNs := NsstrToNs(b.1);
        var widthNs := NsstrToNs(c.1);
        if !enabled {
          t0 := KtimeSet(a.0, t0Ns);
          period := KtimeSet(b.0, periodNs);
          width := KtimeSet(c.0, widthNs);
        }
      }
    }

    method OnTimerCb(now: int)
      requires onTimer.Some?
      modifies this
      ensures View() == Step(old(View()), OnExpire(now))
    {
      onTimer := Some(Forward(onTimer.value, now, period));
      csi0 := true;
      csi1 := true;
    }

    method OffTimerCb(now: int)
      requires offTimer.Some?
      modifies this
      ensures View() == Step(old(View()), OffExpire(now))
    {
      offTimer := Some(Forward(offTimer.value, now, period));
      csi0 := false;
      csi1 := false;
    }
  }

  // ---- Every run ----

  function Run(s: State, es: seq<Event>): State
    decreases |es|
  {
    if es == [] then s else Run(Step(s, es[0]), es[1..])
  }

  predicate PossibleRun(s: State, es: seq<Event>)
    decreases |es|
  {
    es == [] || (Possible(s, es[0]) && PossibleRun(Step(s, es[0]), es[1..]))
  }

  /** The module is at the given level before, between and after the events. */
  predicate Throughout(s: State, es: seq<Event>, level: bool)
    decreases |es|
  {
    s.enabled == level && (es == [] || Throughout(Step(s, es[0]), es[1..], level))
  }

  /** The start time chosen by the latest off-to-on edge of a run; `since` before any edge. */
  function LatestStart(s: State, es: seq<Event>, since: int): int
    decreases |es|
  {
    if es == [] then since
    else
      var s' := Step(s, es[0]);
      LatestStart(s', es[1..],
                  if es[0].WriteEnable? && !s.enabled && s'.enabled then StartTime(s.cfg.t0, es[0].now) else since)
  }

  /** Enabled exactly when both timers are armed; the two pins move together. */
  predicate Consistent(s: State) {
    && (s.enabled <==> s.on.Some?)
    && (s.enabled <==> s.off.Some?)
    && s.cam0 == s.cam1
  }

  /** Both timers sit on the grid that starts at `start`. */
  predicate OnGrid(s: State, start: int) {
    s.on.Some? && s.off.Some? ==>
      var p := Grid(s.cfg.period);
      && (s.on.value - start) % p == 0
      && (s.off.value - (start + s.cfg.width)) % p == 0
      && start <= s.on.value && start + s.cfg.width <= s.off.value
  }

  lemma ForwardKeepsGrid(expires: int, now: int, period: int, origin: int)
    requires expires <= now && (expires - origin) % Grid(period) == 0
    ensures (Forward(expires, now, period) - origin) % Grid(period) == 0
  {
    ForwardGrid(expires, now, period);
    ModSum(Forward(expires, now, period) - expires, expires - origin, Grid(period));
  }

  lemma StepKeepsGrid(s: State, e: Event, start: int)
    requires Consistent(s) && OnGrid(s, start) && Possible(s, e)
    requires e.OnExpire? || e.OffExpire?
    ensures OnGrid(Step(s, e), start)
  {
    if e.OnExpire? {
      ForwardKeepsGrid(s.on.value, e.now, s.cfg.period, start);
      ForwardGrid(s.on.value, e.now, s.cfg.period);
    } else {
      ForwardKeepsGrid(s.off.value, e.now, s.cfg.period, start + s.cfg.width);
      ForwardGrid(s.off.value, e.now, s.cfg.period);
    }
  }

  lemma {:induction false} RunKeepsGrid(s: State, es: seq<Event>, since: int)
    requires Consistent(s) && OnGrid(s, since) && PossibleRun(s, es)
    ensures Consistent(Run(s, es)) && OnGrid(Run(s, es), LatestStart(s, es, since))
    decreases |es|
  {
    if es != [] {
      var s' := Step(s, es[0]);
      if es[0].OnExpire? || es[0].OffExpire? {
        StepKeepsGrid(s, es[0], since);
        RunKeepsGrid(s', es[1..], since);
      } else if es[0].WriteEnable? && !s.enabled && s'.enabled {
        RunKeepsGrid(s', es[1..], StartTime(s.cfg.t0, es[0].now));
      } else {
        RunKeepsGrid(s', es[1..], since);
      }
    }
  }

  /**
   Over every run of the module: it is enabled exactly when both timers are armed, the pins
   agree, and however late callbacks run every expiry keeps the phase of the latest start.
   */
  lemma EveryRun(es: seq<Event>)
    requires PossibleRun(INITIAL, es)
    ensures Consistent(Run(INITIAL, es))
    ensures OnGrid(Run(INITIAL, es), LatestStart(INITIAL, es, 0))
  {
    RunKeepsGrid(INITIAL, es, 0);
  }

  /**
   Any callback of any run, however late: its timer stays armed with the next expiry in
   (now, now + period], the pins take its level, and nothing else changes.
   */
  lemma EveryCallback(es: seq<Event>, e: Event)
    ensures PossibleRun(INITIAL, es) && Possible(Run(INITIAL, es), e) && (e.OnExpire? || e.OffExpire?) ==>
              CallbackEffect(Run(INITIAL, es), e, Step(Run(INITIAL, es), e))
  {
    var s := Run(INITIAL, es);
    if PossibleRun(INITIAL, es) && Possible(s, e) && (e.OnExpire? || e.OffExpire?) {
      EveryRun(es);
      ForwardGrid(if e.OnExpire? then s.on.value else s.off.value, e.now, s.cfg.period);
    }
  }

  /** The timer of the callback is re-armed in time, the pins take its level, all else stays. */
  predicate CallbackEffect(s: State, e: Event, s': State)
    requires e.OnExpire? || e.OffExpire?
  {
    && s.enabled && s'.enabled && s'.cfg == s.cfg
    && s'.on.Some? && s'.off.Some? && s'.cam0 == s'.cam1 == e.OnExpire?
    && (if e.OnExpire? then s'.off == s.off else s'.on == s.on)
    && var expiry := if e.OnExpire? then s'.on.value else s'.off.value;
    e.now < expiry <= e.now + Grid(s.cfg.period)
  }

  /** While armed the timing never changes; while disabled the pins never do. */
  lemma {:induction false} LevelFrames(s: State, es: seq<Event>, level: bool)
    requires Consistent(s) && Throughout(s, es, level)
    ensures level ==> Run(s, es).cfg == s.cfg
    ensures !level ==> Run(s, es).cam0 == s.cam0 && Run(s, es).cam1 == s.cam1
    ensures !level ==> Run(s, es).on == None && Run(s, es).off == None
    decreases |es|
  {
    if es != [] {
      LevelFrames(Step(s, es[0]), es[1..], level);
    }
  }

  /** Asking for the level already held changes nothing, and no write moves a pin. */
  lemma RepeatedWrites(s: State, buf: string, now: int)
    ensures EnableValue(buf) == Some(s.enabled) ==> Step(s, WriteEnable(buf, now)) == s
    ensures var s' := Step(s, WriteEnable(buf, now));
            s'.cam0 == s.cam0 && s'.cam1 == s.cam1 && s'.cfg == s.cfg
    ensures s.enabled ==> Step(s, WriteSettings(buf)) == s
  {
  }

  /** Any 64-bit number written to `enable` asks for the level of its low 32 bits, and text without one for nothing. */
  lemma EnableText(n: int, rest: string)
    requires rest != "" && !IsDigit(rest[0])
    ensures IsInt64(n) ==> EnableValue(PrintInt(n) + rest) == Some(n % TWO32 != 0)
    ensures !IsSpace(rest[0]) && rest[0] != '-' ==> EnableValue(rest) == None
  {
    if IsInt64(n) {
      ScanPrintedInt(n, rest);
    }
  }

  /** What `Opaleye_gpio_mod_ctrl::set_enable` writes is read back as the level it was given. */
  lemma SetEnableText(en: bool)
    ensures EnableValue(if en then "1\n" else "0\n") == Some(en)
  {
    var digit: nat := if en then 1 else 0;
    EnableText(digit, "\n");
    assert PrintInt(digit) + "\n" == if en then "1\n" else "0\n";
  }

  /**
   With no start configured, the start is the only whole second at least a quarter of a second
   and less than a second and a quarter away.
   */
  lemma AutomaticStart(now: int, s: int)
    ensures StartTime(0, now) == s
            <==> s % NSEC_PER_SEC == 0 && 250_000_000 <= s - now < 1_250_000_000
  {
  }

  /** The start that the settings ask for: the one configured, or the next whole second that is not too close. */
  predicate StartsAt(t0: int, now: int, start: int) {
    if t0 != 0 then start == t0
    else start % NSEC_PER_SEC == 0 && 250_000_000 <= start - now < 1_250_000_000
  }

  lemma ChosenStart(t0: int, now: int, start: int)
    ensures StartTime(t0, now) == start <==> StartsAt(t0, now, start)
  {
    AutomaticStart(now, start);
  }

  // ---- Prompt callbacks ----

  /** A prompt callback runs at its expiry, or at once if that had passed when the timers were armed. */
  function FireTime(expires: int, armed: int): int {
    if expires < armed then armed else expires
  }

  /** The events up to time t of timers armed at `armed` with prompt callbacks, earliest expiry first. */
  function PromptEvents(s: State, armed: int, t: int): seq<Event>
    requires s.on.Some? && s.off.Some?
    decreases (if s.on.value <= t then t - s.on.value + 1 else 0)
            + (if s.off.value <= t then t - s.off.value + 1 else 0)
  {
    var onTime, offTime := FireTime(s.on.value, armed), FireTime(s.off.value, armed);
    ForwardGrid(s.on.value, onTime, s.cfg.period);
    ForwardGrid(s.off.value, offTime, s.cfg.period);
    if s.on.value <= t && s.on.value <= s.off.value then
      [OnExpire(onTime)] + PromptEvents(Step(s, OnExpire(onTime)), armed, t)
    else if s.off.value <= t then
      [OffExpire(offTime)] + PromptEvents(Step(s, OffExpire(offTime)), armed, t)
    else []
  }

  /** The pulse train: high for the first `width`, then for `width % period` of each period. */
  predicate PulseHigh(start: int, cfg: Settings, t: int)
    requires cfg.period > 0
  {
    t - start < cfg.width || (t - start) % cfg.period < cfg.width % cfg.period
  }

  /**
   The state after a rising edges and b falling edges, where k whole periods fit in the width:
   once the first falling edge has passed the edges alternate.
   */
  predicate AfterEdges(s: State, start: int, a: nat, b: nat) {
    && s.on.Some? && s.off.Some? && s.cfg.period > 0 && s.cfg.width > 0
    && var p := s.cfg.period;
    var k := s.cfg.width / p;
    && s.cfg.width % p > 0
    && s.on.value == start + a * p
    && s.off.value == start + s.cfg.width + b * p
    && (if b == 0 then a <= k + 1 else k + b <= a <= k + b + 1)
    && (a >= 1 ==> s.cam0 == s.cam1 == (b == 0 || a == k + b + 1))
  }

  /** The edge that is due next is the one the count of edges predicts. */
  lemma NextEdge(s: State, start: int, a: nat, b: nat)
    requires AfterEdges(s, start, a, b)
    ensures var k := s.cfg.width / s.cfg.period;
            if a <= k + b then s.on.value + s.cfg.width % s.cfg.period <= s.off.value
            else s.off.value + s.cfg.period - s.cfg.width % s.cfg.period <= s.on.value
  {
    var p := s.cfg.period;
    var w, k := s.cfg.width % p, s.cfg.width / p;
    var m := a - k - b;
    assert s.on.value - s.off.value == m * p - w by {
      assert s.cfg.width == k * p + w;
      assert m * p == a * p - k * p - b * p;
    }
    assert m >= 1 ==> m * p >= p;
    assert m <= 0 ==> m * p <= 0;
  }

  /** Between a falling and the next rising edge, and between a rising and the next falling edge. */
  lemma LowPhase(x: int, p: int, w: int, q: int, qp: int)
    requires 0 < w < p && qp == q * p && qp + w <= x < qp + p
    ensures x % p >= w
  {
    DivUnique(x, p, q, x - qp);
  }

  lemma HighPhase(x: int, p: int, w: int, q: int, qp: int)
    requires 0 < w < p && qp == q * p && qp <= x < qp + w
    ensures x % p < w
  {
    DivUnique(x, p, q, x - qp);
  }

  /** The products of an edge count: one edge more is one period more. */
  lemma EdgeProducts(a: int, b: int, k: int, p: int)
    ensures (a - 1) * p == a * p - p && (b - 1) * p == b * p - p && (k + b) * p == k * p + b * p
  {
  }

  lemma PulseAtRest(s: State, start: int, a: nat, b: nat, t: int)
    requires AfterEdges(s, start, a, b) && a >= 1
    requires t < s.on.value && t < s.off.value
    requires start + (a - 1) * s.cfg.period <= t
    requires b >= 1 ==> start + s.cfg.width + (b - 1) * s.cfg.period <= t
    ensures s.cam0 == PulseHigh(start, s.cfg, t)
  {
    var p := s.cfg.period;
    var w, k := s.cfg.width % p, s.cfg.width / p;
    if b >= 1 {
      assert s.cfg.width == k * p + w;
      EdgeProducts(a, b, k, p);
      assert (b - 1) * p >= 0;
      if a == k + b {
        LowPhase(t - start, p, w, a - 1, (a - 1) * p);
      } else {
        HighPhase(t - start, p, w, a - 1, (a - 1) * p);
      }
    }
  }

  /** Each edge that is due moves the counts on by one. */
  lemma OnEdge(s: State, start: int, a: nat, b: nat)
    requires AfterEdges(s, start, a, b) && s.on.value <= s.off.value
    ensures AfterEdges(Step(s, OnExpire(s.on.value)), start, a + 1, b)
  {
    NextEdge(s, start, a, b);
    ForwardPrompt(s.on.value, s.cfg.period);
    EdgeProducts(a + 1, b, 0, s.cfg.period);
  }

  lemma OffEdge(s: State, start: int, a: nat, b: nat)
    requires AfterEdges(s, start, a, b) && s.off.value < s.on.value
    ensures AfterEdges(Step(s, OffExpire(s.off.value)), start, a, b + 1)
  {
    NextEdge(s, start, a, b);
    ForwardPrompt(s.off.value, s.cfg.period);
    EdgeProducts(a, b + 1, 0, s.cfg.period);
  }

  /** At rest at time t: both timers expire later, and the pins are at the given level. */
  predicate Settled(s: State, t: int, level: bool) {
    && s.on.Some? && s.on.value > t && s.off.Some? && s.off.value > t
    && s.cam0 == level && s.cam1 == level
  }

  /** The prompt run up to time t is possible and leaves the pins at the given level. */
  predicate LeadsTo(s: State, armed: int, t: int, level: bool)
    requires s.on.Some? && s.off.Some?
  {
    var es := PromptEvents(s, armed, t);
    PossibleRun(s, es) && Settled(Run(s, es), t, level)
  }

  /** One due event, then the rest of the run. */
  lemma LeadsOn(s: State, armed: int, t: int, level: bool)
    requires s.on.Some? && s.off.Some? && s.on.value <= t && s.on.value <= s.off.value
    requires var s' := Step(s, OnExpire(FireTime(s.on.value, armed))); LeadsTo(s', armed, t, level)
    ensures LeadsTo(s, armed, t, level)
  {
    var e := OnExpire(FireTime(s.on.value, armed));
    var rest := PromptEvents(Step(s, e), armed, t);
    assert ([e] + rest)[1..] == rest;
  }

  lemma LeadsOff(s: State, armed: int, t: int, level: bool)
    requires s.on.Some? && s.off.Some? && s.off.value <= t && s.off.value < s.on.value
    requires var s' := Step(s, OffExpire(FireTime(s.off.value, armed))); LeadsTo(s', armed, t, level)
    ensures LeadsTo(s, armed, t, level)
  {
    var e := OffExpire(FireTime(s.off.value, armed));
    var rest := PromptEvents(Step(s, e), armed, t);
    assert ([e] + rest)[1..] == rest;
  }

  /** Once no timer is overdue, prompt callbacks follow the pulse train. */
  lemma {:induction false} PromptRun(s: State, start: int, a: nat, b: nat, armed: int, t: int)
    requires AfterEdges(s, start, a, b) && armed <= s.on.value && armed <= s.off.value
    requires start <= t
    requires a >= 1 ==> start + (a - 1) * s.cfg.period <= t
    requires b >= 1 ==> start + s.cfg.width + (b - 1) * s.cfg.period <= t
    ensures LeadsTo(s, armed, t, PulseHigh(start, s.cfg, t))
    decreases |PromptEvents(s, armed, t)|
  {
    if s.on.value <= t && s.on.value <= s.off.value {
      OnEdge(s, start, a, b);
      PromptRun(Step(s, OnExpire(s.on.value)), start, a + 1, b, armed, t);
      LeadsOn(s, armed, t, PulseHigh(start, s.cfg, t));
    } else if s.off.value <= t {
      OffEdge(s, start, a, b);
      PromptRun(Step(s, OffExpire(s.off.value)), start, a, b + 1, armed, t);
      LeadsOff(s, armed, t, PulseHigh(start, s.cfg, t));
    } else {
      PulseAtRest(s, start, a, b, t);
    }
  }

  // ---- Enabling, in time or late ----

  predicate ValidTiming(cfg: Settings) {
    cfg.period > 0 && cfg.width > 0 && cfg.width % cfg.period != 0
  }

  /**
   Enabled in the middle of a pulse that is not the first: both timers are overdue, so the pins
   rise and fall at once and this pulse is missed.
   */
  predicate MissesPulse(start: int, cfg: Settings, now: int)
    requires cfg.period > 0
  {
    start + cfg.width <= now && (now - start) % cfg.period < cfg.width % cfg.period
  }

  /** The level of the pins at t, after enabling at `now` with the pins at level `was`. */
  predicate PinLevel(was: bool, start: int, cfg: Settings, now: int, t: int)
    requires cfg.period > 0
  {
    if t < start then was
    else PulseHigh(start, cfg, t) && !(MissesPulse(start, cfg, now) && t < Forward(start, now, cfg.period))
  }

  /** The state right after enabling. */
  predicate JustArmed(s: State, start: int) {
    && ValidTiming(s.cfg) && s.cam0 == s.cam1
    && s.on == Some(start) && s.off == Some(start + s.cfg.width)
  }

  /** A late timer skips the whole periods since its expiry and one more. */
  lemma ForwardCount(origin: int, now: int, period: int)
    requires origin <= now && period > 0
    ensures var n := (now - origin) / period;
            && n >= 0 && n * period <= now - origin
            && now < Forward(origin, now, period) == origin + (n + 1) * period
  {
    var x := now - origin;
    assert 0 / period == 0;
    DivMonotone(0, x, period);
    assert x == x / period * period + x % period;
    ForwardGrid(origin, now, period);
  }

  lemma QuotientProducts(q: int, k: int, c: int, p: int)
    ensures (q - k - c) * p == q * p - k * p - c * p
  {
  }

  lemma LateQuotient(x: int, width: int, p: int)
    requires p > 0
    ensures (x - width) / p == x / p - width / p - (if x % p >= width % p then 0 else 1)
  {
    var q, r, k, w := x / p, x % p, width / p, width % p;
    var c := if r >= w then 0 else 1;
    assert x == q * p + r && width == k * p + w;
    QuotientProducts(q, k, c, p);
    DivUnique(x - width, p, q - k - c, if r >= w then r - w else r - w + p);
  }

  /** Enabled before the first falling edge is due: the first pulse is only shortened. */
  lemma EnabledEarly(s: State, start: int, now: int, t: int)
    requires JustArmed(s, start) && start <= now <= t && now < start + s.cfg.width
    ensures LeadsTo(s, now, t, PulseHigh(start, s.cfg, t))
  {
    var p := s.cfg.period;
    ForwardCount(start, now, p);
    DivMonotone(now - start, s.cfg.width, p);
    var a := (now - start) / p + 1;
    var s1 := Step(s, OnExpire(now));
    assert AfterEdges(s1, start, a, 0);
    PromptRun(s1, start, a, 0, now, t);
    LeadsOn(s, now, t, PulseHigh(start, s.cfg, t));
  }

  /** What two immediate callbacks leave behind when both timers are overdue. */
  function AfterBoth(s: State, start: int, now: int): State {
    s.(on := Some(Forward(start, now, s.cfg.period)), off := Some(Forward(start + s.cfg.width, now, s.cfg.period)),
       cam0 := false, cam1 := false)
  }

  lemma BothOverdue(s: State, start: int, now: int, t: int, level: bool)
    requires JustArmed(s, start) && start + s.cfg.width <= now <= t
    requires LeadsTo(AfterBoth(s, start, now), now, t, level)
    ensures LeadsTo(s, now, t, level)
  {
    ForwardGrid(start, now, s.cfg.period);
    var s1 := Step(s, OnExpire(now));
    LeadsOff(s1, now, t, level);
    LeadsOn(s, now, t, level);
  }

  /** The pulse at the enabling time is missed; after its falling edge the train is followed. */
  lemma MissedPulse(s: State, start: int, a: nat, b: nat, armed: int, t: int)
    requires s.on.Some? && s.off.Some? && ValidTiming(s.cfg) && !s.cam0 && !s.cam1
    requires b >= 1 && a == s.cfg.width / s.cfg.period + b + 1
    requires s.on.value == start + a * s.cfg.period && s.off.value == start + s.cfg.width + b * s.cfg.period
    requires armed <= s.off.value < s.on.value && start + (a - 1) * s.cfg.period <= armed <= t
    ensures LeadsTo(s, armed, t, PulseHigh(start, s.cfg, t) && t >= s.on.value)
  {
    if t >= s.off.value {
      var s' := Step(s, OffExpire(s.off.value));
      ForwardPrompt(s.off.value, s.cfg.period);
      assert (b + 1) * s.cfg.period == b * s.cfg.period + s.cfg.period;
      assert AfterEdges(s', start, a, b + 1);
      assert (a - 1) * s.cfg.period >= 0;
      PromptRun(s', start, a, b + 1, armed, t);
      if t < s.on.value {
        PulseAtRest(s', start, a, b + 1, t);
      }
      LeadsOff(s, armed, t, PulseHigh(start, s.cfg, t) && t >= s.on.value);
    }
  }

  /** Both timers stand at their first edges after `now`; the counts tell which comes first. */
  lemma EdgesAfter(s: State, start: int, now: int)
    requires JustArmed(s, start) && start + s.cfg.width <= now
    ensures var p, q, m := s.cfg.period, (now - start) / s.cfg.period, (now - start - s.cfg.width) / s.cfg.period;
            && q >= 0 && q * p <= now - start
            && m >= 0 && m * p <= now - start - s.cfg.width
            && now < AfterBoth(s, start, now).on.value == start + (q + 1) * p
            && now < AfterBoth(s, start, now).off.value == start + s.cfg.width + (m + 1) * p
            && m + 1 == q - s.cfg.width / p + (if MissesPulse(start, s.cfg, now) then 0 else 1)
  {
    ForwardCount(start, now, s.cfg.period);
    ForwardCount(start + s.cfg.width, now, s.cfg.period);
    LateQuotient(now - start, s.cfg.width, s.cfg.period);
  }

  /** Enabled between two pulses. */
  lemma EnabledBetween(s: State, start: int, now: int, t: int)
    requires JustArmed(s, start) && start + s.cfg.width <= now <= t && !MissesPulse(start, s.cfg, now)
    ensures LeadsTo(s, now, t, PulseHigh(start, s.cfg, t))
  {
    EdgesAfter(s, start, now);
    var q, m := (now - start) / s.cfg.period, (now - start - s.cfg.width) / s.cfg.period;
    var s2 := AfterBoth(s, start, now);
    assert AfterEdges(s2, start, q + 1, m + 1);
    PromptRun(s2, start, q + 1, m + 1, now, t);
    BothOverdue(s, start, now, t, PulseHigh(start, s.cfg, t));
  }

  /** Enabled within a pulse that is not the first. */
  lemma EnabledWithin(s: State, start: int, now: int, t: int)
    requires JustArmed(s, start) && start + s.cfg.width <= now <= t && MissesPulse(start, s.cfg, now)
    ensures LeadsTo(s, now, t, PulseHigh(start, s.cfg, t) && t >= Forward(start, now, s.cfg.period))
  {
    EdgesAfter(s, start, now);
    var q, m := (now - start) / s.cfg.period, (now - start - s.cfg.width) / s.cfg.period;
    var s2 := AfterBoth(s, start, now);
    MissedOrder(start, s.cfg, q + 1, m + 1);
    MissedPulse(s2, start, q + 1, m + 1, now, t);
    BothOverdue(s, start, now, t, PulseHigh(start, s.cfg, t) && t >= s2.on.value);
  }

  lemma MissedOrder(start: int, cfg: Settings, a: int, b: int)
    requires ValidTiming(cfg) && a == cfg.width / cfg.period + b + 1
    ensures start + cfg.width + b * cfg.period < start + a * cfg.period
  {
    var p, k := cfg.period, cfg.width / cfg.period;
    assert cfg.width == k * p + cfg.width % p;
    assert a * p == k * p + b * p + p;
  }

  /**
   With prompt callbacks the pins are, at every time from the enabling write on, exactly at the
   level `PinLevel` tells: as before until the start, then on the pulse train, but for a pulse
   that was already under way, and not the first, when the module was enabled. A width that is a
   multiple of the period makes both edges coincide.
   */
  lemma PromptPulse(s: State, buf: string, now: int, start: int, t: int)
    requires Consistent(s) && !s.enabled && EnableValue(buf) == Some(true)
    requires ValidTiming(s.cfg) && now <= t && StartsAt(s.cfg.t0, now, start)
    ensures var s1 := Step(s, WriteEnable(buf, now));
            && s1.enabled && s1.on.Some? && s1.off.Some?
            && LeadsTo(s1, now, t, PinLevel(s.cam0, start, s.cfg, now, t))
  {
    ChosenStart(s.cfg.t0, now, start);
    var s1 := Step(s, WriteEnable(buf, now));
    assert JustArmed(s1, start);
    if start + s.cfg.width <= now {
      if MissesPulse(start, s.cfg, now) {
        EnabledWithin(s1, start, now, t);
      } else {
        EnabledBetween(s1, start, now, t);
      }
    } else if start <= now {
      EnabledEarly(s1, start, now, t);
    } else if start <= t {
      assert s.cfg.width / s.cfg.period >= 0 by {
        DivMonotone(0, s.cfg.width, s.cfg.period);
        assert 0 / s.cfg.period == 0;
      }
      PromptRun(s1, start, 0, 0, now, t);
    }
  }

  /** A pulse narrower than the period is the plain pulse train. */
  lemma NarrowPulse(start: int, cfg: Settings, t: int)
    requires 0 < cfg.width < cfg.period && start <= t
    ensures PulseHigh(start, cfg, t) <==> (t - start) % cfg.period < cfg.width
  {
    DivUnique(cfg.width, cfg.period, 0, cfg.width);
    if t - start < cfg.width {
      DivUnique(t - start, cfg.period, 0, t - start);
    }
  }

  /**
   The pins follow the pulse train from the first moment they can exactly when the module is
   enabled before the first falling edge is due or between two pulses.
   */
  lemma TrainFollowed(was: bool, start: int, cfg: Settings, now: int)
    requires ValidTiming(cfg)
    ensures (forall t :: start <= t && now <= t ==> PinLevel(was, start, cfg, now, t) == PulseHigh(start, cfg, t))
            <==> now < start + cfg.width || (now - start) % cfg.period >= cfg.width % cfg.period
  {
    if MissesPulse(start, cfg, now) {
      ForwardGrid(start, now, cfg.period);
      assert PulseHigh(start, cfg, now) && !PinLevel(was, start, cfg, now, now);
    }
  }

  /** A missed pulse costs no more than the rest of its period: from the next rising edge on the train is followed. */
  lemma TrainResumes(was: bool, start: int, cfg: Settings, now: int, t: int)
    requires ValidTiming(cfg) && start <= now && Forward(start, now, cfg.period) <= t
    ensures Forward(start, now, cfg.period) <= now + cfg.period
    ensures PinLevel(was, start, cfg, now, t) == PulseHigh(start, cfg, t)
  {
    ForwardGrid(start, now, cfg.period);
  }

  /**
   The start-up sequence of the application from any state of the module: disable, configure,
   enable. The settings stored are the durations asked for, and with prompt callbacks the pins
   are at every later time at the level those durations call for: from the start asked for, or from
   the next whole second at least a quarter of a second away if none was.
   */
  lemma StartupPulse(s: State, t0: int, period: int, width: int, before: int, now: int, t: int)
    requires Consistent(s) && now <= t
    requires IsInt64(t0) && Printable(t0) && t0 < KTIME_SEC_MAX * NSEC_PER_SEC
    requires 0 < period < KTIME_SEC_MAX * NSEC_PER_SEC
    requires 0 < width < KTIME_SEC_MAX * NSEC_PER_SEC && width % period != 0
    ensures var s1 := Step(s, WriteEnable("0\n", before));
            var s2 := Step(s1, WriteSettings(ConfigureLine(t0, period, width)));
            var s3 := Step(s2, WriteEnable("1\n", now));
            && !s1.enabled && s2.cfg == Settings(t0, period, width)
            && s3.enabled && s3.on.Some? && s3.off.Some?
            && (t0 != 0 ==> LeadsTo(s3, now, t, PinLevel(s.cam0, t0, Settings(t0, period, width), now, t)))
            && (t0 == 0 ==>
                  forall start | start % NSEC_PER_SEC == 0 && 250_000_000 <= start - now < 1_250_000_000 ::
                    LeadsTo(s3, now, t, PinLevel(s.cam0, start, Settings(t0, period, width), now, t)))
  {
    SetEnableText(false);
    SetEnableText(true);
    var s1 := Step(s, WriteEnable("0\n", before));
    ConfigureRoundTrip(t0, period, width);
    var s2 := Step(s1, WriteSettings(ConfigureLine(t0, period, width)));
    assert s2 == s1.(cfg := Settings(t0, period, width));
    forall start | StartsAt(t0, now, start)
      ensures var s3 := Step(s2, WriteEnable("1\n", now));
              && s3.enabled && s3.on.Some? && s3.off.Some?
              && LeadsTo(s3, now, t, PinLevel(s.cam0, start, s2.cfg, now, t))
    {
      PromptPulse(s2, "1\n", now, start, t);
    }
    ChosenStart(t0, now, StartTime(t0, now));
    assert t0 != 0 ==> StartsAt(t0, now, t0);
  }

  lemma DefaultLevel(now: int, start: int, t: int)
    requires start % NSEC_PER_SEC == 0 && now < start
    ensures PinLevel(false, start, INITIAL.cfg, now, t) <==> start <= t && t % 1_000_000_000 < 100_000_000
  {
    if start <= t {
      NarrowPulse(start, INITIAL.cfg, t);
    }
  }

  /**
   As loaded, without any settings, the module raises the pins for the first tenth of every second
   of the clock, from the automatic start on.
   */
  lemma DefaultPulse(now: int, start: int, t: int)
    requires now <= t && start % NSEC_PER_SEC == 0 && 250_000_000 <= start - now < 1_250_000_000
    ensures var s := Step(INITIAL, WriteEnable("1\n", now));
            && s.on.Some? && s.off.Some?
            && LeadsTo(s, now, t, start <= t && t % 1_000_000_000 < 100_000_000)
  {
    SetEnableText(true);
    PromptPulse(INITIAL, "1\n", now, start, t);
    DefaultLevel(now, start, t);
  }

  /**
   A start of one second after the epoch, a period of one second and a width of half a second,
   enabled at 10.2 seconds: the pins are low then, though the train is high, and rise at 11.
   */
  lemma PastStart()
    ensures var cfg := Settings(1_000_000_000, 1_000_000_000, 500_000_000);
            var s := Step(INITIAL.(cfg := cfg), WriteEnable("1\n", 10_200_000_000));
            && s.on.Some? && s.off.Some?
            && PulseHigh(1_000_000_000, cfg, 10_200_000_000)
            && LeadsTo(s, 10_200_000_000, 10_200_000_000, false)
            && LeadsTo(s, 10_200_000_000, 10_999_999_999, false)
            && LeadsTo(s, 10_200_000_000, 11_000_000_000, true)
  {
    var s := INITIAL.(cfg := Settings(1_000_000_000, 1_000_000_000, 500_000_000));
    SetEnableText(true);
    PromptPulse(s, "1\n", 10_200_000_000, 1_000_000_000, 10_200_000_000);
    PromptPulse(s, "1\n", 10_200_000_000, 1_000_000_000, 10_999_999_999);
    PromptPulse(s, "1\n", 10_200_000_000, 1_000_000_000, 11_000_000_000);
  }

  // ---- Late callbacks ----

  /**
   A run from `since` up to time t, with callbacks in time order, in which no timer is overdue by
   more than the latency, neither when a callback runs nor at t.
   */
  predicate TimelyRun(s: State, es: seq<Event>, since: int, latency: nat, t: int)
    decreases |es|
  {
    && s.on.Some? && s.off.Some?
    && if es == [] then
         t < s.on.value + latency && t < s.off.value + latency
       else if es[0].OnExpire? || es[0].OffExpire? then
         && Possible(s, es[0]) && since <= es[0].now <= t
         && es[0].now <= s.on.value + latency && es[0].now <= s.off.value + latency
         && TimelyRun(Step(s, es[0]), es[1..], es[0].now, latency, t)
       else
         TimelyRun(Step(s, es[0]), es[1..], since, latency, t)
  }

  /** A latency short of both phases of the pulse. */
  predicate ShortLatency(cfg: Settings, latency: nat)
    requires cfg.period > 0
  {
    latency < cfg.width % cfg.period && latency < cfg.period - cfg.width % cfg.period
  }

  /** A callback less than a period late skips nothing. */
  lemma ForwardLate(expires: int, now: int, period: int)
    requires expires <= now < expires + period
    ensures Forward(expires, now, period) == expires + period
  {
    DivUnique(now - expires, period, 0, now - expires);
  }

  lemma LateOnEdge(s: State, start: int, a: nat, b: nat, latency: nat, now: int)
    requires AfterEdges(s, start, a, b) && ShortLatency(s.cfg, latency)
    requires s.on.value <= now <= s.on.value + latency && now <= s.off.value + latency
    ensures AfterEdges(Step(s, OnExpire(now)), start, a + 1, b)
    ensures Step(s, OnExpire(now)).on == Some(s.on.value + s.cfg.period)
  {
    NextEdge(s, start, a, b);
    ForwardLate(s.on.value, now, s.cfg.period);
    EdgeProducts(a + 1, b, 0, s.cfg.period);
  }

  lemma LateOffEdge(s: State, start: int, a: nat, b: nat, latency: nat, now: int)
    requires AfterEdges(s, start, a, b) && ShortLatency(s.cfg, latency)
    requires s.off.value <= now <= s.off.value + latency && now <= s.on.value + latency
    ensures AfterEdges(Step(s, OffExpire(now)), start, a, b + 1)
    ensures Step(s, OffExpire(now)).off == Some(s.off.value + s.cfg.period)
  {
    NextEdge(s, start, a, b);
    ForwardLate(s.off.value, now, s.cfg.period);
    EdgeProducts(a, b + 1, 0, s.cfg.period);
  }

  /** The train is at one level between two edges; q counts the rising edges before, qp is q periods. */
  lemma TrainLow(start: int, cfg: Settings, t: int, q: int, qp: int)
    requires ValidTiming(cfg) && qp == q * cfg.period
    requires qp + cfg.width % cfg.period <= t - start < qp + cfg.period && cfg.width <= t - start
    ensures !PulseHigh(start, cfg, t)
  {
    LowPhase(t - start, cfg.period, cfg.width % cfg.period, q, qp);
  }

  lemma TrainHigh(start: int, cfg: Settings, t: int, q: int, qp: int)
    requires ValidTiming(cfg) && qp == q * cfg.period
    requires qp <= t - start < qp + cfg.width % cfg.period
    ensures PulseHigh(start, cfg, t)
  {
    HighPhase(t - start, cfg.period, cfg.width % cfg.period, q, qp);
  }

  /** From a falling edge to less than the latency after the next rising edge, a steady train is low. */
  lemma LateLow(start: int, cfg: Settings, latency: nat, t: int, q: int, qp: int)
    requires ValidTiming(cfg) && ShortLatency(cfg, latency) && qp == q * cfg.period
    requires cfg.width <= qp + cfg.width % cfg.period <= t - start
    requires t - start < qp + cfg.period + latency
    requires PulseHigh(start, cfg, t) == PulseHigh(start, cfg, t - latency)
    ensures !PulseHigh(start, cfg, t)
  {
    if t - start < qp + cfg.period {
      TrainLow(start, cfg, t, q, qp);
    } else {
      TrainLow(start, cfg, t - latency, q, qp);
    }
  }

  /** From a rising edge to less than the latency after the falling edge it is high. */
  lemma LateHigh(start: int, cfg: Settings, latency: nat, t: int, q: int, qp: int)
    requires ValidTiming(cfg) && ShortLatency(cfg, latency) && qp == q * cfg.period
    requires qp <= t - start < qp + cfg.width % cfg.period + latency
    requires PulseHigh(start, cfg, t) == PulseHigh(start, cfg, t - latency)
    ensures PulseHigh(start, cfg, t)
  {
    if t - start < qp + cfg.width % cfg.period {
      TrainHigh(start, cfg, t, q, qp);
    } else {
      TrainHigh(start, cfg, t - latency, q, qp);
    }
  }

  /** The edges counted were due by t. */
  predicate EdgesBy(s: State, a: nat, b: nat, t: int) {
    && (a >= 1 ==> s.on.Some? && s.on.value - s.cfg.period <= t)
    && (b >= 1 ==> s.off.Some? && s.off.value - s.cfg.period <= t)
  }

  /** The train has been at one level for the latency up to t. */
  predicate Steady(start: int, cfg: Settings, latency: nat, t: int)
    requires cfg.period > 0
  {
    start + latency <= t && PulseHigh(start, cfg, t) == PulseHigh(start, cfg, t - latency)
  }

  /** Once edges alternate, where the timers stand around the last rising edge. */
  lemma TimersAround(s: State, start: int, a: nat, b: nat)
    requires AfterEdges(s, start, a, b) && b >= 1
    ensures var p, w, edge := s.cfg.period, s.cfg.width % s.cfg.period, start + (a - 1) * s.cfg.period;
            && s.on.value == edge + p
            && start + s.cfg.width <= edge + w
            && s.off.value == if a == s.cfg.width / p + b then edge + w + p else edge + w
  {
    var p, k := s.cfg.period, s.cfg.width / s.cfg.period;
    EdgeProducts(a, b, k, p);
    EdgeProducts(k + b, b, k, p);
    assert s.cfg.width == k * p + s.cfg.width % p;
    assert (b - 1) * p >= 0;
  }

  lemma LateAtRest(s: State, start: int, a: nat, b: nat, latency: nat, t: int)
    requires AfterEdges(s, start, a, b) && ShortLatency(s.cfg, latency) && EdgesBy(s, a, b, t)
    requires TimelyRun(s, [], t, latency, t) && Steady(start, s.cfg, latency, t)
    ensures s.cam0 == s.cam1 == PulseHigh(start, s.cfg, t)
  {
    if b >= 1 {
      TimersAround(s, start, a, b);
      if a == s.cfg.width / s.cfg.period + b {
        LateLow(start, s.cfg, latency, t, a - 1, (a - 1) * s.cfg.period);
      } else {
        LateHigh(start, s.cfg, latency, t, a - 1, (a - 1) * s.cfg.period);
      }
    }
  }

  /** One event of a timely run moves the counts on by at most one. */
  lemma LateStep(s: State, start: int, a: nat, b: nat, e: Event, latency: nat, t: int) returns (a': nat, b': nat)
    requires AfterEdges(s, start, a, b) && ShortLatency(s.cfg, latency) && EdgesBy(s, a, b, t)
    requires s.enabled && Step(s, e).enabled && Possible(s, e)
    requires e.OnExpire? || e.OffExpire? ==>
               e.now <= t && e.now <= s.on.value + latency && e.now <= s.off.value + latency
    ensures AfterEdges(Step(s, e), start, a', b') && EdgesBy(Step(s, e), a', b', t) && Step(s, e).cfg == s.cfg
  {
    a', b' := a, b;
    if e.OnExpire? {
      LateOnEdge(s, start, a, b, latency, e.now);
      a' := a + 1;
    } else if e.OffExpire? {
      LateOffEdge(s, start, a, b, latency, e.now);
      b' := b + 1;
    }
  }

  lemma {:induction false} LateRun(
    s: State, start: int, a: nat, b: nat, es: seq<Event>, since: int, latency: nat, t: int)
    requires AfterEdges(s, start, a, b) && ShortLatency(s.cfg, latency) && EdgesBy(s, a, b, t)
    requires Throughout(s, es, true) && TimelyRun(s, es, since, latency, t) && Steady(start, s.cfg, latency, t)
    ensures Run(s, es).cam0 == Run(s, es).cam1 == PulseHigh(start, s.cfg, t)
    decreases |es|
  {
    if es == [] {
      LateAtRest(s, start, a, b, latency, t);
    } else {
      var a', b' := LateStep(s, start, a, b, es[0], latency, t);
      var since' := if es[0].OnExpire? || es[0].OffExpire? then es[0].now else since;
      LateRun(Step(s, es[0]), start, a', b', es[1..], since', latency, t);
    }
  }

  /**
   Over every run in which no callback is late by more than a latency short of both phases, whatever
   is written meanwhile: where the train has held its level for the latency, the pins are at it.
   */
  lemma LatePulse(s: State, start: int, es: seq<Event>, since: int, latency: nat, t: int)
    requires JustArmed(s, start) && ShortLatency(s.cfg, latency)
    requires Throughout(s, es, true) && TimelyRun(s, es, since, latency, t) && Steady(start, s.cfg, latency, t)
    ensures Run(s, es).cam0 == Run(s, es).cam1 == PulseHigh(start, s.cfg, t)
  {
    DivMonotone(0, s.cfg.width, s.cfg.period);
    assert 0 / s.cfg.period == 0;
    LateRun(s, start, 0, 0, es, since, latency, t);
  }

  /** The pins at t, for a pulse narrower than the period, but for the latency after each edge. */
  predicate Tracks(s: State, start: int, latency: nat, t: int)
    requires s.cfg.period > 0
  {
    var x := (t - start) % s.cfg.period;
    && (latency <= x < s.cfg.width ==> s.cam0 && s.cam1)
    && (s.cfg.width + latency <= x ==> !s.cam0 && !s.cam1)
  }

  lemma NarrowLate(s: State, start: int, es: seq<Event>, since: int, latency: nat, t: int)
    requires JustArmed(s, start) && s.cfg.width < s.cfg.period && start <= t
    requires latency < s.cfg.width && latency < s.cfg.period - s.cfg.width
    requires Throughout(s, es, true) && TimelyRun(s, es, since, latency, t)
    ensures Run(s, es).cfg == s.cfg && Tracks(Run(s, es), start, latency, t)
  {
    var p := s.cfg.period;
    var q, x := (t - start) / p, (t - start) % p;
    LevelFrames(s, es, true);
    DivUnique(s.cfg.width, p, 0, s.cfg.width);
    assert t - start == q * p + x;
    if latency <= x {
      assert 0 / p == 0;
      DivMonotone(0, t - start, p);
      assert q * p >= 0;
      DivUnique(t - latency - start, p, q, x - latency);
      NarrowPulse(start, s.cfg, t);
      NarrowPulse(start, s.cfg, t - latency);
      if x < s.cfg.width || s.cfg.width + latency <= x {
        LatePulse(s, start, es, since, latency, t);
      }
    }
  }

  /** Every timely run of the armed module tracks the train but for the latency. */
  ghost predicate AlwaysTracks(s: State, start: int, since: int, latency: nat) {
    forall es, t ::
      start <= t && Throughout(s, es, true) && TimelyRun(s, es, since, latency, t) ==>
        Run(s, es).cfg.period > 0 && Tracks(Run(s, es), start, latency, t)
  }

  /** The callbacks of one pulse swapped: a callback late by the width leaves the pins high. */
  lemma SwappedHigh(s: State, start: int, since: int, latency: nat)
    requires JustArmed(s, start) && s.enabled && since <= start && s.cfg.width <= latency < s.cfg.period - s.cfg.width
    ensures !AlwaysTracks(s, start, since, latency)
  {
    var p, w := s.cfg.period, s.cfg.width;
    var es := [OffExpire(start + w), OnExpire(start + w)];
    var s1 := Step(s, es[0]);
    var s2 := Step(s1, es[1]);
    var t := start + p - 1;
    ForwardLate(start + w, start + w, p);
    ForwardLate(start, start + w, p);
    assert es[1..] == [es[1]] && es[1..][1..] == [];
    assert Throughout(s2, [], true) && Throughout(s1, es[1..], true);
    assert TimelyRun(s2, [], start + w, latency, t) && TimelyRun(s1, es[1..], start + w, latency, t);
    assert Run(s2, []) == s2 && Run(s1, es[1..]) == s2 && Run(s, es) == s2;
    DivUnique(t - start, p, 0, p - 1);
    assert !Tracks(s2, start, latency, t);
  }

  /** A falling edge late by the low phase comes after the next rising edge and leaves the pins low. */
  lemma SwappedLow(s: State, start: int, since: int, latency: nat)
    requires JustArmed(s, start) && s.enabled && since <= start && s.cfg.width < s.cfg.period
    requires s.cfg.period - s.cfg.width <= latency < s.cfg.width
    ensures !AlwaysTracks(s, start, since, latency)
  {
    var p, w := s.cfg.period, s.cfg.width;
    var es := [OnExpire(start), OnExpire(start + p), OffExpire(start + p)];
    var s1 := Step(s, es[0]);
    var s2 := Step(s1, es[1]);
    var s3 := Step(s2, es[2]);
    var t := start + p + w - 1;
    ForwardLate(start, start, p);
    ForwardLate(start + p, start + p, p);
    ForwardLate(start + w, start + p, p);
    assert es[1..] == [es[1], es[2]] && es[1..][1..] == [es[2]] && es[1..][1..][1..] == [];
    assert Throughout(s3, [], true) && Throughout(s2, [es[2]], true) && Throughout(s1, es[1..], true);
    assert TimelyRun(s3, [], start + p, latency, t) && TimelyRun(s2, [es[2]], start + p, latency, t);
    assert TimelyRun(s1, es[1..], start, latency, t);
    assert Run(s3, []) == s3 && Run(s2, [es[2]]) == s3 && Run(s1, es[1..]) == s3 && Run(s, es) == s3;
    DivUnique(t - start, p, 1, w - 1);
    assert !Tracks(s3, start, latency, t);
  }

  /**
   The latency that the trigger tolerates: for a pulse narrower than the period, a start not in the
   past and a latency that leaves part of some phase to speak of, every timely run after the enabling
   write tracks the train exactly when the latency is below both the width and the rest of the period.
   */
  lemma LatencyBound(s: State, buf: string, now: int, start: int, latency: nat)
    requires Consistent(s) && !s.enabled && EnableValue(buf) == Some(true)
    requires 0 < s.cfg.width < s.cfg.period && StartsAt(s.cfg.t0, now, start) && now <= start
    requires latency < s.cfg.width || latency < s.cfg.period - s.cfg.width
    ensures AlwaysTracks(Step(s, WriteEnable(buf, now)), start, now, latency)
            <==> latency < s.cfg.width && latency < s.cfg.period - s.cfg.width
  {
    var s1 := Step(s, WriteEnable(buf, now));
    ChosenStart(s.cfg.t0, now, start);
    DivUnique(s.cfg.width, s.cfg.period, 0, s.cfg.width);
    assert JustArmed(s1, start);
    if latency >= s.cfg.width {
      SwappedHigh(s1, start, now, latency);
    } else if latency >= s.cfg.period - s.cfg.width {
      SwappedLow(s1, start, now, latency);
    } else {
      forall es, t | start <= t && Throughout(s1, es, true) && TimelyRun(s1, es, now, latency, t)
        ensures Run(s1, es).cfg.period > 0 && Tracks(Run(s1, es), start, latency, t)
      {
        NarrowLate(s1, start, es, now, latency, t);
      }
    }
  }
}
