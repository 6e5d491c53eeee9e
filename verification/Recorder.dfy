/**
 Video recording: the file index scan and file names of
 libs/camera-pipes/pipeline/storage/mp4_splitmuxsink.cpp, and the registry of capture pipelines
 in opaleye/Opaleye_app.cpp. A recorder writes into the directory of its camera and start day.
 */
module Recorder {
  import opened CInt
  import opened DecimalText
  import opened Wrappers

  const MAX_INDEX := 999_999

  // ---- Names and the scan ----

  /** `fmt::format("file-{:06d}.avi", id)`. */
  function FileName(id: nat): string {
    "file-" + PrintPadded(id, 6) + ".avi"
  }

  predicate IsBlank(c: char) {
    c == ' ' || '\t' <= c <= '\r'
  }

  function SkipBlanks(s: string): string {
    if s != "" && IsBlank(s[0]) then SkipBlanks(s[1..]) else s
  }

  /** `%06u`: at most six characters, a sign included; a minus sign negates modulo 2^32. */
  function ScanNumber(t: string): (r: Option<nat>)
    ensures r.Some? ==> r.value < TWO32
  {
    var signed := t != "" && (t[0] == '+' || t[0] == '-');
    var u := if signed then t[1..] else t;
    var k := DigitRun(u, if signed then 5 else 6);
    if k == 0 then None
    else Some((if t[0] == '-' then -Value(u[..k]) else Value(u[..k])) % TWO32)
  }

  /** `sscanf(name, "file-%06u.mp4", &num) == 1`: what follows the number does not matter. */
  function ScanIndex(name: string): (r: Option<nat>)
    ensures r.Some? ==> r.value < TWO32
  {
    if "file-" <= name then ScanNumber(SkipBlanks(name[5..])) else None
  }

  /** A number as the format sees it: at most one sign, then digits up to six characters or a non-digit. */
  ghost predicate NumberParts(t: string, sign: string, digits: string, rest: string) {
    && t == sign + (digits + rest) && (sign == "" || sign == "+" || sign == "-")
    && digits != "" && AllDigits(digits) && |sign| + |digits| <= 6
    && (|sign| + |digits| == 6 || rest == "" || !IsDigit(rest[0]))
  }

  lemma ScanNumberText(t: string, sign: string, digits: string, rest: string)
    requires NumberParts(t, sign, digits, rest)
    ensures ScanNumber(t) == Some((if sign == "-" then -Value(digits) else Value(digits)) % TWO32)
    ensures t != "" && !IsBlank(t[0])
  {
    var u := digits + rest;
    assert t[0] == if sign == "" then digits[0] else sign[0];
    assert if sign == "" then t == u else t[1..] == u;
    DigitRunConcat(digits, rest, 6 - |sign|);
    assert u[..|digits|] == digits;
  }

  lemma RunParts(u: string, width: nat) returns (digits: string, rest: string)
    requires DigitRun(u, width) > 0
    ensures u == digits + rest && digits != "" && AllDigits(digits) && |digits| <= width
    ensures |digits| == width || rest == "" || !IsDigit(rest[0])
  {
    var k := DigitRun(u, width);
    digits, rest := u[..k], u[k..];
  }

  lemma ScanNumberParts(t: string) returns (sign: string, digits: string, rest: string)
    requires ScanNumber(t).Some?
    ensures NumberParts(t, sign, digits, rest)
  {
    sign := if t[0] == '+' then "+" else if t[0] == '-' then "-" else "";
    var u := if sign == "" then t else t[1..];
    assert t == sign + u;
    digits, rest := RunParts(u, 6 - |sign|);
  }

  /** A name as the format sees it: the literal, blanks, and a number. */
  ghost predicate Parts(name: string, blanks: string, sign: string, digits: string, rest: string) {
    && (forall i :: 0 <= i < |blanks| ==> IsBlank(blanks[i]))
    && name == "file-" + (blanks + (sign + (digits + rest)))
    && NumberParts(sign + (digits + rest), sign, digits, rest)
  }

  lemma {:induction false} SkipBlanksPast(blanks: string, t: string)
    requires forall i :: 0 <= i < |blanks| ==> IsBlank(blanks[i])
    requires t == "" || !IsBlank(t[0])
    ensures SkipBlanks(blanks + t) == t
  {
    if blanks == "" {
      assert blanks + t == t;
    } else {
      assert (blanks + t)[1..] == blanks[1..] + t;
      SkipBlanksPast(blanks[1..], t);
    }
  }

  lemma {:induction false} SkippedBlanks(s: string) returns (blanks: string)
    ensures s == blanks + SkipBlanks(s) && forall i :: 0 <= i < |blanks| ==> IsBlank(blanks[i])
  {
    if s != "" && IsBlank(s[0]) {
      var rest := SkippedBlanks(s[1..]);
      blanks := [s[0]] + rest;
      assert s == [s[0]] + (rest + SkipBlanks(s[1..]));
    } else {
      blanks := "";
    }
  }

  /** A name with such parts is scanned as its number, negated by a minus sign, in 32 bits. */
  lemma ScanText(name: string, blanks: string, sign: string, digits: string, rest: string)
    requires Parts(name, blanks, sign, digits, rest)
    ensures ScanIndex(name) == Some((if sign == "-" then -Value(digits) else Value(digits)) % TWO32)
  {
    var t := sign + (digits + rest);
    ScanNumberText(t, sign, digits, rest);
    assert name[5..] == blanks + t;
    SkipBlanksPast(blanks, t);
  }

  /** And only such a name is scanned at all. */
  lemma ScanParts(name: string) returns (blanks: string, sign: string, digits: string, rest: string)
    requires ScanIndex(name).Some?
    ensures Parts(name, blanks, sign, digits, rest)
  {
    blanks := SkippedBlanks(name[5..]);
    sign, digits, rest := ScanNumberParts(SkipBlanks(name[5..]));
    assert name == "file-" + name[5..];
  }

  lemma FileNameText()
    ensures FileName(0) == "file-000000.avi" && FileName(12) == "file-000012.avi"
  {
    assert PadLeft("12", 6) == "000012" && PadLeft("0", 6) == "000000";
    assert PrintNat(12) == "12";
  }

  datatype Entry = Entry(name: string, regular: bool)

  function Max(a: nat, b: nat): nat {
    if a < b then b else a
  }

  /** The running maximum after one more directory entry. */
  function Note(start: nat, e: Entry): nat {
    if e.regular && ScanIndex(e.name).Some? then Max(start, (ScanIndex(e.name).value + 1) % TWO32) else start
  }

  /** The first index of a recorder that finds these entries in its directory. */
  function StartId(dir: seq<Entry>): nat {
    if dir == [] then 0 else Note(StartId(dir[..|dir| - 1]), dir[|dir| - 1])
  }

  lemma StartIdStep(dir: seq<Entry>, i: nat)
    requires i < |dir|
    ensures StartId(dir[..i + 1]) == Note(StartId(dir[..i]), dir[i])
  {
    assert dir[..i + 1][..i] == dir[..i];
  }

  ghost predicate Holds(dir: seq<Entry>, name: string) {
    Entry(name, true) in dir
  }

  /** The scan loop of `mp4_splitmuxsink::init`. */
  method ScanDirectory(dir: seq<Entry>) returns (startingId: nat)
    ensures startingId == StartId(dir)
  {
    startingId := 0;
    var i := 0;
    while i < |dir|
      invariant 0 <= i <= |dir|
      invariant startingId == StartId(dir[..i])
    {
      var e := dir[i];
      StartIdStep(dir, i);
      if e.regular {
        var num := ScanIndex(e.name);
        if num.Some? {
          startingId := Max(startingId, (num.value + 1) % TWO32);
        }
      }
      i := i + 1;
    }
    assert dir[..i] == dir;
  }

  /** The start is at least one more, in 32 bits, than the index scanned from any regular file. */
  lemma {:induction false} ScanBounds(dir: seq<Entry>, name: string, n: nat)
    requires Holds(dir, name) && ScanIndex(name) == Some(n)
    ensures StartId(dir) >= (n + 1) % TWO32
  {
    var last := dir[|dir| - 1];
    if last != Entry(name, true) {
      assert dir == dir[..|dir| - 1] + [last];
      ScanBounds(dir[..|dir| - 1], name, n);
    }
  }

  /** And unless it is zero it is one more than a scanned index, so it is their maximum. */
  lemma {:induction false} ScanAttained(dir: seq<Entry>) returns (e: Entry)
    requires StartId(dir) != 0
    ensures e in dir && e.regular && ScanIndex(e.name).Some?
    ensures StartId(dir) == (ScanIndex(e.name).value + 1) % TWO32
  {
    var rest, last := dir[..|dir| - 1], dir[|dir| - 1];
    if StartId(dir) == StartId(rest) {
      e := ScanAttained(rest);
      assert dir == rest + [last];
    } else {
      e := last;
    }
  }

  /** The scan of a printed name reads the first six digits of its index. */
  lemma ScanPrintedName(id: nat)
    ensures var d := PrintPadded(id, 6);
            && |d| >= 6 && AllDigits(d) && AllDigits(d[..6])
            && ScanIndex(FileName(id)) == Some(Value(d[..6]) % TWO32)
  {
    var d := PrintPadded(id, 6);
    PrintPaddedValue(id, 6);
    var t := d + ".avi";
    assert FileName(id) == "file-" + t;
    assert FileName(id)[5..] == t;
    assert IsDigit(t[0]) && SkipBlanks(t) == t;
    DigitRunConcat(d, ".avi", 6);
    assert t[..6] == d[..6];
  }

  lemma SixDigits()
    ensures Pow10(6) == MAX_INDEX + 1
  {
    assert Pow10(3) == 1000;
  }

  /** Up to the largest six-digit index the scan is exact. */
  lemma ScanExact(id: nat)
    requires id <= MAX_INDEX
    ensures ScanIndex(FileName(id)) == Some(id)
  {
    ScanPrintedName(id);
    SixDigits();
    PrintPaddedValue(id, 6);
    assert PrintPadded(id, 6)[..6] == PrintPadded(id, 6);
    assert id % TWO32 == id;
  }

  lemma SmallWord(v: int)
    requires 0 <= v < TWO32
    ensures v % TWO32 == v
  {
  }

  /** Beyond it, dropping digits makes the scan fall far short. */
  lemma ScanShort(id: nat)
    requires MAX_INDEX < id < TWO32
    ensures ScanIndex(FileName(id)).Some? && ScanIndex(FileName(id)).value * 10 <= id
  {
    ScanPrintedName(id);
    SixDigits();
    PrintPaddedValue(id, 6);
    LeadingDigits(PrintPadded(id, 6), 6);
    SmallWord(Value(PrintPadded(id, 6)[..6]));
  }

  lemma NamesDistinct(i: nat, j: nat)
    requires FileName(i) == FileName(j)
    ensures i == j
  {
    PrintPaddedValue(i, 6);
    PrintPaddedValue(j, 6);
    var a, b := PrintPadded(i, 6), PrintPadded(j, 6);
    assert FileName(i)[5..|FileName(i)| - 4] == a;
    assert FileName(j)[5..|FileName(j)| - 4] == b;
  }

  lemma LoneFileScan(n: nat)
    requires MAX_INDEX < n < TWO32
    ensures StartId([Entry(FileName(n), true)]) <= n
  {
    ScanShort(n);
    var dir := [Entry(FileName(n), true)];
    assert dir[..0] == [];
  }

  /** Index n is safe after every scan that starts at or below it exactly when it has six digits. */
  lemma IndexSafe(n: nat)
    requires n < TWO32
    ensures (forall dir: seq<Entry> :: StartId(dir) <= n ==> !Holds(dir, FileName(n))) <==> n <= MAX_INDEX
  {
    if n <= MAX_INDEX {
      ScanExact(n);
      forall dir: seq<Entry> | StartId(dir) <= n
        ensures !Holds(dir, FileName(n))
      {
        if Holds(dir, FileName(n)) {
          ScanBounds(dir, FileName(n), n);
        }
      }
    } else {
      LoneFileScan(n);
      assert Holds([Entry(FileName(n), true)], FileName(n));
    }
  }

  // ---- The capture registry ----

  /** The storage directory of a recording. */
  datatype Dir = Dir(camera: string, day: string)

  datatype Pipeline =
    | Camera
    | Capture(dir: Dir, start: nat, next: nat)  // first index, and the next fragment number

  datatype App = App(pipelines: map<string, Pipeline>, disk: map<Dir, seq<Entry>>)

  datatype Event =
    | Start(camera: string, day: string, ok: bool)  // ok: directory, init and start succeed
    | Stop(camera: string)
    | Fragment(camera: string)                      // the muxer asks for its next file
    | Remove(dir: Dir, name: string)                // somebody deletes a file
    | Restart(cameras: set<string>)                 // the process starts afresh

  function Key(camera: string): string {
    camera + "/file0"
  }

  function Listing(disk: map<Dir, seq<Entry>>, dir: Dir): seq<Entry> {
    if dir in disk then disk[dir] else []
  }

  function AddFile(entries: seq<Entry>, name: string): seq<Entry> {
    if Entry(name, true) in entries then entries else entries + [Entry(name, true)]
  }

  function RemoveFile(entries: seq<Entry>, name: string): seq<Entry> {
    if entries == [] then []
    else if entries[0].name == name then RemoveFile(entries[1..], name)
    else [entries[0]] + RemoveFile(entries[1..], name)
  }

  /** `fragment_id + starting_id` in 32 bits. */
  function FragmentIndex(c: Pipeline): nat
    requires c.Capture?
  {
    (c.next + c.start) % TWO32
  }

  function Step(a: App, e: Event): App {
    match e
    case Start(camera, day, ok) =>
      if camera !in a.pipelines || Key(camera) in a.pipelines || !ok then a
      else
        var dir := Dir(camera, day);
        a.(pipelines := a.pipelines[Key(camera) := Capture(dir, StartId(Listing(a.disk, dir)), 0)])
    case Stop(camera) =>
      if camera in a.pipelines && Key(camera) in a.pipelines && a.pipelines[Key(camera)].Capture?
      then a.(pipelines := a.pipelines - {Key(camera)}) else a
    case Fragment(camera) =>
      if Key(camera) !in a.pipelines || !a.pipelines[Key(camera)].Capture? then a
      else
        var c := a.pipelines[Key(camera)];
        App(a.pipelines[Key(camera) := c.(next := c.next + 1)],
            a.disk[c.dir := AddFile(Listing(a.disk, c.dir), FileName(FragmentIndex(c)))])
    case Remove(dir, name) =>
      a.(disk := a.disk[dir := RemoveFile(Listing(a.disk, dir), name)])
    case Restart(cameras) =>
      a.(pipelines := map c | c in cameras :: Camera)
  }

  function Run(a: App, es: seq<Event>): App {
    if es == [] then a else Step(Run(a, es[..|es| - 1]), es[|es| - 1])
  }

  /** The file is in its directory beside all that was there, and no other directory changed. */
  ghost predicate Created(disk: map<Dir, seq<Entry>>, disk': map<Dir, seq<Entry>>, dir: Dir, name: string) {
    && (forall e :: e in Listing(disk', dir) <==> e in Listing(disk, dir) || e == Entry(name, true))
    && (forall d :: d != dir ==> Listing(disk', d) == Listing(disk, d))
  }

  datatype StopResult = Stopped | NotFound | Fault

  class OpaleyeApp {
    var pipelines: map<string, Pipeline>
    var disk: map<Dir, seq<Entry>>

    function View(): App
      reads this
    {
      App(pipelines, disk)
    }

    constructor (cameras: set<string>, disk: map<Dir, seq<Entry>>)
      ensures View() == App(map c | c in cameras :: Camera, disk)
    {
      pipelines := map c | c in cameras :: Camera;
      this.disk := disk;
    }

    method StartVideoCapture(camera: string, day: string, ok: bool) returns (started: bool)
      modifies this
      ensures View() == Step(old(View()), Start(camera, day, ok))
      ensures started <==> camera in old(pipelines) && Key(camera) !in old(pipelines) && ok
      ensures disk == old(disk) && (!started ==> pipelines == old(pipelines))
      ensures started ==> var dir := Dir(camera, day);
                          pipelines == old(pipelines)[Key(camera) := Capture(dir, StartId(Listing(disk, dir)), 0)]
    {
      if camera !in pipelines {
        return false;
      }
      if Key(camera) in pipelines {
        return false;
      }
      if !ok {
        return false;
      }
      var dir := Dir(camera, day);
      var startingId := ScanDirectory(Listing(disk, dir));
      pipelines := pipelines[Key(camera) := Capture(dir, startingId, 0)];
      started := true;
    }

    method StopVideoCapture(camera: string) returns (r: StopResult)
      modifies this
      ensures View() == Step(old(View()), Stop(camera))
      ensures r == NotFound <==> camera !in old(pipelines) || Key(camera) !in old(pipelines)
      ensures r == Stopped <==> camera in old(pipelines) && Key(camera) in old(pipelines)
                                && old(pipelines)[Key(camera)].Capture?
      ensures disk == old(disk)
      ensures pipelines == if r == Stopped then old(pipelines) - {Key(camera)} else old(pipelines)
    {
      if camera !in pipelines || Key(camera) !in pipelines {
        return NotFound;
      }
      if !pipelines[Key(camera)].Capture? {
        return Fault;
      }
      pipelines := pipelines - {Key(camera)};
      r := Stopped;
    }

    /** `handle_format_location`: name the next fragment; the muxer then creates that file. */
    method HandleFormatLocation(camera: string) returns (filename: string)
      requires Key(camera) in pipelines && pipelines[Key(camera)].Capture?
      modifies this
      ensures View() == Step(old(View()), Fragment(camera))
      ensures var c := old(pipelines[Key(camera)]);
              filename == FileName((c.start + c.next) % TWO32) && Created(old(disk), disk, c.dir, filename)
    {
      var c := pipelines[Key(camera)];
      filename := FileName((c.next + c.start) % TWO32);
      disk := disk[c.dir := AddFile(Listing(disk, c.dir), filename)];
      pipelines := pipelines[Key(camera) := c.(next := c.next + 1)];
    }
  }

  // ---- No recording is overwritten ----

  /** Every six-digit index in use lies below the bound. */
  ghost predicate Below(entries: seq<Entry>, bound: nat) {
    forall id: nat :: id <= MAX_INDEX && Holds(entries, FileName(id)) ==> id < bound
  }

  /** A capture is registered under the name of its camera, ahead of every file of its directory. */
  ghost predicate CaptureOk(a: App, key: string)
    requires key in a.pipelines
  {
    var c := a.pipelines[key];
    c.Capture? ==> key == Key(c.dir.camera) && Below(Listing(a.disk, c.dir), c.start + c.next)
  }

  ghost predicate Ahead(a: App) {
    forall key :: key in a.pipelines ==> CaptureOk(a, key)
  }

  lemma ScanPasses(entries: seq<Entry>, name: string, id: nat)
    requires Holds(entries, name) && ScanIndex(name) == Some(id) && id <= MAX_INDEX
    ensures id < StartId(entries)
  {
    ScanBounds(entries, name, id);
    assert (id + 1) % TWO32 == id + 1;
  }

  lemma ScanIsAhead(entries: seq<Entry>)
    ensures Below(entries, StartId(entries))
  {
    forall id: nat | id <= MAX_INDEX && Holds(entries, FileName(id))
      ensures id < StartId(entries)
    {
      ScanExact(id);
      ScanPasses(entries, FileName(id), id);
    }
  }

  lemma AddKeepsBelow(entries: seq<Entry>, n: nat)
    requires Below(entries, n)
    ensures Below(AddFile(entries, FileName(n % TWO32)), n + 1)
  {
    var name := FileName(n % TWO32);
    forall id: nat | id <= MAX_INDEX && Holds(AddFile(entries, name), FileName(id))
      ensures id < n + 1
    {
      if !Holds(entries, FileName(id)) {
        NamesDistinct(id, n % TWO32);
      }
    }
  }

  /** Deleting a name takes away exactly the entries of that name. */
  lemma {:induction false} RemoveExact(entries: seq<Entry>, name: string, e: Entry)
    ensures e in RemoveFile(entries, name) <==> e in entries && e.name != name
  {
    if entries != [] {
      assert entries == [entries[0]] + entries[1..];
      RemoveExact(entries[1..], name, e);
    }
  }

  lemma KeyInjective(a: string, b: string)
    requires Key(a) == Key(b)
    ensures a == b
  {
    assert |a| == |b|;
    assert a == Key(a)[..|a|] && b == Key(b)[..|b|];
  }

  lemma FragmentKeepsAhead(a: App, camera: string)
    requires Ahead(a)
    ensures Ahead(Step(a, Fragment(camera)))
  {
    if Key(camera) in a.pipelines && a.pipelines[Key(camera)].Capture? {
      var c := a.pipelines[Key(camera)];
      assert CaptureOk(a, Key(camera));
      KeyInjective(camera, c.dir.camera);
      AddKeepsBelow(Listing(a.disk, c.dir), c.next + c.start);
      var a' := Step(a, Fragment(camera));
      forall key | key in a'.pipelines
        ensures CaptureOk(a', key)
      {
        assert CaptureOk(a, key);
      }
    }
  }

  lemma RemoveKeepsAhead(a: App, dir: Dir, name: string)
    requires Ahead(a)
    ensures Ahead(Step(a, Remove(dir, name)))
  {
    var a' := Step(a, Remove(dir, name));
    forall key | key in a'.pipelines
      ensures CaptureOk(a', key)
    {
      assert CaptureOk(a, key);
      forall e | e in RemoveFile(Listing(a.disk, dir), name)
        ensures e in Listing(a.disk, dir)
      {
        RemoveExact(Listing(a.disk, dir), name, e);
      }
    }
  }

  lemma StepKeepsAhead(a: App, e: Event)
    requires Ahead(a)
    ensures Ahead(Step(a, e))
  {
    match e
    case Start(camera, day, ok) =>
      ScanIsAhead(Listing(a.disk, Dir(camera, day)));
      forall key | key in Step(a, e).pipelines
        ensures CaptureOk(Step(a, e), key)
      {
        assert key in a.pipelines ==> CaptureOk(a, key);
      }
    case Stop(camera) =>
      forall key | key in Step(a, e).pipelines
        ensures CaptureOk(Step(a, e), key)
      {
        assert CaptureOk(a, key);
      }
    case Fragment(camera) => FragmentKeepsAhead(a, camera);
    case Remove(dir, name) => RemoveKeepsAhead(a, dir, name);
    case Restart(cameras) =>
  }

  lemma {:induction false} RunKeepsAhead(a: App, es: seq<Event>)
    requires Ahead(a)
    ensures Ahead(Run(a, es))
  {
    if es != [] {
      RunKeepsAhead(a, es[..|es| - 1]);
      StepKeepsAhead(Run(a, es[..|es| - 1]), es[|es| - 1]);
    }
  }

  lemma AheadIsFresh(b: App, key: string)
    requires Ahead(b) && key in b.pipelines && b.pipelines[key].Capture?
    requires b.pipelines[key].start + b.pipelines[key].next <= MAX_INDEX
    ensures var c := b.pipelines[key];
            && FragmentIndex(c) == c.start + c.next
            && !Holds(Listing(b.disk, c.dir), FileName(FragmentIndex(c)))
  {
    assert CaptureOk(b, key);
  }

  lemma AheadIsExclusive(b: App, key: string, other: string)
    requires Ahead(b) && key in b.pipelines && other in b.pipelines
    requires b.pipelines[key].Capture? && b.pipelines[other].Capture?
    requires b.pipelines[key].dir == b.pipelines[other].dir
    ensures key == other
  {
    assert CaptureOk(b, key) && CaptureOk(b, other);
  }

  /** No capture is registered yet. */
  predicate CamerasOnly(a: App) {
    forall k :: k in a.pipelines ==> a.pipelines[k] == Camera
  }

  /**
   Over every run of starts, stops, fragments, deletions and restarts, on any initial disk: a
   fragment whose first index plus number is at most 999999, before any wrap to 32 bits, is given
   a name that no file of its directory has, and no two captures share a directory.
   */
  lemma NeverOverwrites(a: App, es: seq<Event>, key: string)
    requires CamerasOnly(a)
    requires key in Run(a, es).pipelines && Run(a, es).pipelines[key].Capture?
    ensures var b := Run(a, es);
            var c := b.pipelines[key];
            c.start + c.next <= MAX_INDEX ==>
              FragmentIndex(c) == c.start + c.next
              && !Holds(Listing(b.disk, c.dir), FileName(FragmentIndex(c)))
    ensures var b := Run(a, es);
            forall other | other in b.pipelines && b.pipelines[other].Capture? ::
              b.pipelines[other].dir == b.pipelines[key].dir ==> other == key
  {
    RunKeepsAhead(a, es);
    var b := Run(a, es);
    if b.pipelines[key].start + b.pipelines[key].next <= MAX_INDEX {
      AheadIsFresh(b, key);
    }
    forall other | other in b.pipelines && b.pipelines[other].Capture? && b.pipelines[other].dir == b.pipelines[key].dir
      ensures other == key
    {
      AheadIsExclusive(b, key, other);
    }
  }

  // ---- What is handed out stays ----

  /** The event is a fragment of a capture into this directory. */
  predicate Into(a: App, e: Event, dir: Dir) {
    && e.Fragment? && Key(e.camera) in a.pipelines && a.pipelines[Key(e.camera)].Capture?
    && a.pipelines[Key(e.camera)].dir == dir
  }

  /** And its first index plus number, unwrapped, is this total. */
  predicate HandsOut(a: App, e: Event, dir: Dir, total: nat) {
    Into(a, e, dir) && a.pipelines[Key(e.camera)].start + a.pipelines[Key(e.camera)].next == total
  }

  /** A fragment leaves its file on the disk, beside all that was there. */
  lemma FragmentCreates(a: App, e: Event, dir: Dir, total: nat)
    requires HandsOut(a, e, dir, total)
    ensures Created(a.disk, Step(a, e).disk, dir, FileName(total % TWO32))
    ensures Step(a, e).pipelines == a.pipelines[Key(e.camera) := Capture(dir, a.pipelines[Key(e.camera)].start,
                                                                         a.pipelines[Key(e.camera)].next + 1)]
  {
  }

  lemma RunStep(a: App, es: seq<Event>, i: nat)
    requires i < |es|
    ensures Run(a, es[..i + 1]) == Step(Run(a, es[..i]), es[i])
  {
    assert es[..i + 1][..i] == es[..i];
  }

  /** A file stays until somebody deletes it. */
  lemma FileStays(a: App, e: Event, dir: Dir, name: string)
    requires Holds(Listing(a.disk, dir), name) && e != Remove(dir, name)
    ensures Holds(Listing(Step(a, e).disk, dir), name)
  {
    if e.Remove? {
      RemoveExact(Listing(a.disk, e.dir), e.name, Entry(name, true));
    }
  }

  lemma {:induction false} FileStaysLong(a: App, es: seq<Event>, i: nat, j: nat, dir: Dir, name: string)
    requires i <= j <= |es| && Holds(Listing(Run(a, es[..i]).disk, dir), name)
    requires forall k :: i <= k < j ==> es[k] != Remove(dir, name)
    ensures Holds(Listing(Run(a, es[..j]).disk, dir), name)
    decreases j - i
  {
    if i < j {
      FileStaysLong(a, es, i, j - 1, dir, name);
      RunStep(a, es, j - 1);
      FileStays(Run(a, es[..j - 1]), es[j - 1], dir, name);
    }
  }

  /** What a fragment was named stays on the disk until somebody deletes it. */
  lemma HandedOutStays(a: App, es: seq<Event>, i: nat, j: nat, dir: Dir, total: nat)
    requires i < j <= |es| && HandsOut(Run(a, es[..i]), es[i], dir, total)
    requires forall k :: i < k < j ==> es[k] != Remove(dir, FileName(total % TWO32))
    ensures Holds(Listing(Run(a, es[..j]).disk, dir), FileName(total % TWO32))
  {
    FragmentCreates(Run(a, es[..i]), es[i], dir, total);
    RunStep(a, es, i);
    FileStaysLong(a, es, i + 1, j, dir, FileName(total % TWO32));
  }

  /**
   Over every run, stops, starts and restarts included: two fragments handed out into one directory
   have different names, if the total of the later one is at most 999999 and nobody deleted the
   earlier file in between.
   */
  lemma NamesNeverRepeat(a: App, es: seq<Event>, i: nat, j: nat, dir: Dir, m: nat, n: nat)
    requires CamerasOnly(a) && i < j < |es|
    requires HandsOut(Run(a, es[..i]), es[i], dir, m) && HandsOut(Run(a, es[..j]), es[j], dir, n)
    requires n <= MAX_INDEX
    requires forall k :: i < k < j ==> es[k] != Remove(dir, FileName(m % TWO32))
    ensures FileName(m % TWO32) != FileName(n % TWO32)
  {
    HandedOutStays(a, es, i, j, dir, m);
    NeverOverwrites(a, es[..j], Key(es[j].camera));
  }

  // ---- A directory filled from the first file on ----

  /** How many fragments of a run went into a directory. */
  function CountInto(a: App, es: seq<Event>, dir: Dir): nat {
    if es == [] then 0
    else
      var b, e := Run(a, es[..|es| - 1]), es[|es| - 1];
      CountInto(a, es[..|es| - 1], dir) + (if Into(b, e, dir) then 1 else 0)
  }

  function Files(n: nat): seq<Entry> {
    seq(n, i requires i >= 0 => Entry(FileName(i), true))
  }

  lemma NotePrinted(id: nat)
    requires id <= MAX_INDEX
    ensures Note(id, Entry(FileName(id), true)) == id + 1
  {
    ScanExact(id);
    assert (id + 1) % TWO32 == id + 1;
  }

  lemma {:induction false} FilesStart(n: nat)
    requires n <= MAX_INDEX + 1
    ensures StartId(Files(n)) == n
  {
    if n > 0 {
      var id: nat := n - 1;
      FilesStart(id);
      assert Files(n)[..id] == Files(id) && Files(n)[id] == Entry(FileName(id), true);
      NotePrinted(id);
    }
  }

  lemma FilesGrow(n: nat)
    ensures AddFile(Files(n), FileName(n)) == Files(n + 1)
  {
    if Entry(FileName(n), true) in Files(n) {
      var i :| 0 <= i < n && Files(n)[i] == Entry(FileName(n), true);
      NamesDistinct(i, n);
    }
  }

  /** The directory holds files 0 to n - 1, and a capture into it goes on with file n. */
  ghost predicate Numbered(a: App, dir: Dir, n: nat) {
    && Listing(a.disk, dir) == Files(n)
    && (forall key :: key in a.pipelines && a.pipelines[key].Capture? && a.pipelines[key].dir == dir ==>
          a.pipelines[key].start + a.pipelines[key].next == n)
  }

  lemma NumberedFragment(a: App, e: Event, dir: Dir, n: nat)
    requires Ahead(a) && Numbered(a, dir, n) && Into(a, e, dir) && n <= MAX_INDEX
    ensures Numbered(Step(a, e), dir, n + 1)
  {
    FilesGrow(n);
    SmallWord(n);
    forall key | key in a.pipelines && a.pipelines[key].Capture? && a.pipelines[key].dir == dir
      ensures key == Key(e.camera)
    {
      AheadIsExclusive(a, key, Key(e.camera));
    }
  }

  lemma NumberedStep(a: App, e: Event, dir: Dir, n: nat)
    requires Ahead(a) && Numbered(a, dir, n) && !(e.Remove? && e.dir == dir)
    requires n <= MAX_INDEX + 1 && (Into(a, e, dir) ==> n <= MAX_INDEX)
    ensures Numbered(Step(a, e), dir, if Into(a, e, dir) then n + 1 else n)
  {
    if Into(a, e, dir) {
      NumberedFragment(a, e, dir, n);
    } else if e.Start? {
      FilesStart(n);
    }
  }

  /**
   A directory that starts empty and from which nobody deletes: over every run, however often the
   recording is stopped, started and the process restarted, after n fragments it holds exactly the
   files 0 to n - 1 and a capture into it goes on with file n, as long as n is at most 1000000.
   */
  lemma {:induction false} DirectoryNumbered(a: App, es: seq<Event>, dir: Dir)
    requires CamerasOnly(a) && Listing(a.disk, dir) == []
    requires forall i :: 0 <= i < |es| && es[i].Remove? ==> es[i].dir != dir
    requires CountInto(a, es, dir) <= MAX_INDEX + 1
    ensures Numbered(Run(a, es), dir, CountInto(a, es, dir))
  {
    if es != [] {
      var rest := es[..|es| - 1];
      DirectoryNumbered(a, rest, dir);
      RunKeepsAhead(a, rest);
      NumberedStep(Run(a, rest), es[|es| - 1], dir, CountInto(a, rest, dir));
    }
  }

  /** A restarted process has no capture and the same disk, and each of its cameras can record. */
  lemma RestartForgets(a: App, cameras: set<string>, camera: string, day: string)
    ensures var b := Step(a, Restart(cameras));
            && b.pipelines.Keys == cameras && CamerasOnly(b) && b.disk == a.disk
            && (camera in cameras && Key(camera) !in cameras ==>
                  var c := Step(b, Start(camera, day, true));
                  && Key(camera) in c.pipelines && c.pipelines[Key(camera)].Capture?
                  && c.pipelines[Key(camera)].dir == Dir(camera, day))
  {
  }

  /** Stopping and starting again on the same day continues above every six-digit file that is still there. */
  lemma NextRecordingContinues(a: App, camera: string, id: nat)
    requires Ahead(a) && camera in a.pipelines && Key(camera) in a.pipelines && a.pipelines[Key(camera)].Capture?
    requires id <= MAX_INDEX
    requires Holds(Listing(a.disk, a.pipelines[Key(camera)].dir), FileName(id))
    ensures var day := a.pipelines[Key(camera)].dir.day;
            var b := Step(Step(a, Stop(camera)), Start(camera, day, true));
            && b.disk == a.disk && Key(camera) in b.pipelines && b.pipelines[Key(camera)].Capture?
            && b.pipelines[Key(camera)].dir == a.pipelines[Key(camera)].dir
            && b.pipelines[Key(camera)].start > id
  {
    var dir := a.pipelines[Key(camera)].dir;
    assert CaptureOk(a, Key(camera));
    KeyInjective(camera, dir.camera);
    assert |Key(camera)| > |camera|;
    ScanExact(id);
    ScanPasses(Listing(a.disk, dir), FileName(id), id);
  }

  function CountFragments(es: seq<Event>, camera: string): nat {
    if es == [] then 0
    else CountFragments(es[..|es| - 1], camera) + (if es[|es| - 1] == Fragment(camera) then 1 else 0)
  }

  /**
   A recording is left alone until its own stop or a restart of the process: no other event, a
   second start included, changes its directory or first index, and its files are numbered
   consecutively.
   */
  lemma {:induction false} RecordingConsecutive(a: App, es: seq<Event>, camera: string)
    requires Key(camera) in a.pipelines && a.pipelines[Key(camera)].Capture?
    requires forall i :: 0 <= i < |es| ==> es[i] != Stop(camera) && !es[i].Restart?
    ensures var c := a.pipelines[Key(camera)];
            && Key(camera) in Run(a, es).pipelines
            && Run(a, es).pipelines[Key(camera)] == c.(next := c.next + CountFragments(es, camera))
  {
    if es != [] {
      var rest, last := es[..|es| - 1], es[|es| - 1];
      RecordingConsecutive(a, rest, camera);
      match last
      case Start(other, _, _) => OtherKey(other, camera);
      case Stop(other) => OtherKey(other, camera);
      case Fragment(other) => OtherKey(other, camera);
      case Remove(_, _) =>
    }
  }

  lemma OtherKey(a: string, b: string)
    ensures Key(a) == Key(b) <==> a == b
  {
    if Key(a) == Key(b) {
      KeyInjective(a, b);
    }
  }

  function Fragments(camera: string, k: nat): seq<Event> {
    seq(k, _ => Fragment(camera))
  }

  lemma {:induction false} RunFragments(a: App, day: string, camera: string, k: nat, name: string)
    requires a.pipelines == map[camera := Camera]
    requires Holds(Listing(a.disk, Dir(camera, day)), name)
    ensures var dir := Dir(camera, day);
            var b := Run(a, [Start(camera, day, true)] + Fragments(camera, k));
            && Key(camera) in b.pipelines
            && b.pipelines[Key(camera)] == Capture(dir, StartId(Listing(a.disk, dir)), k)
            && Holds(Listing(b.disk, dir), name)
    decreases k
  {
    var es := [Start(camera, day, true)] + Fragments(camera, k);
    if k == 0 {
      assert |Key(camera)| > |camera|;
      assert es[..0] == [] && Run(a, []) == a;
    } else {
      RunFragments(a, day, camera, k - 1, name);
      assert es[..|es| - 1] == [Start(camera, day, true)] + Fragments(camera, k - 1);
      assert es[|es| - 1] == Fragment(camera);
    }
  }

  /**
   The next fragment of a capture, whose first index plus number is this total, would take the
   name of a file that is there.
   */
  ghost predicate AboutToReuse(a: App, key: string, total: nat) {
    && key in a.pipelines && a.pipelines[key].Capture?
    && a.pipelines[key].start + a.pipelines[key].next == total
    && Holds(Listing(a.disk, a.pipelines[key].dir), FileName(FragmentIndex(a.pipelines[key])))
  }

  lemma ReuseAt(b: App, key: string, c: Pipeline, total: nat)
    requires key in b.pipelines && b.pipelines[key] == c && c.Capture? && c.start + c.next == total
    requires Holds(Listing(b.disk, c.dir), FileName(total % TWO32))
    ensures AboutToReuse(b, key, total)
  {
  }

  lemma ReuseWhenScanShort(a: App, camera: string, day: string, total: nat)
    requires a.pipelines == map[camera := Camera]
    requires Holds(Listing(a.disk, Dir(camera, day)), FileName(total % TWO32))
    requires StartId(Listing(a.disk, Dir(camera, day))) <= total
    ensures exists es :: AboutToReuse(Run(a, es), Key(camera), total)
  {
    var dir := Dir(camera, day);
    var start := StartId(Listing(a.disk, dir));
    var k := total - start;
    RunFragments(a, day, camera, k, FileName(total % TWO32));
    var es := [Start(camera, day, true)] + Fragments(camera, k);
    ReuseAt(Run(a, es), Key(camera), Capture(dir, start, k), total);
  }

  lemma {:induction false} StartIdFits(dir: seq<Entry>)
    ensures StartId(dir) < TWO32
  {
    if dir != [] {
      StartIdFits(dir[..|dir| - 1]);
    }
  }

  lemma LoneWrappedScan(total: nat)
    requires total > MAX_INDEX
    ensures StartId([Entry(FileName(total % TWO32), true)]) <= total
  {
    if total < TWO32 {
      assert total % TWO32 == total;
      LoneFileScan(total);
    } else {
      StartIdFits([Entry(FileName(total % TWO32), true)]);
    }
  }

  lemma LoneDirectory(camera: string, day: string, e: Entry, total: nat)
    requires e == Entry(FileName(total % TWO32), true) && StartId([e]) <= total
    ensures var a := App(map[camera := Camera], map[Dir(camera, day) := [e]]);
            exists es :: AboutToReuse(Run(a, es), Key(camera), total)
  {
    var a := App(map[camera := Camera], map[Dir(camera, day) := [e]]);
    ReuseWhenScanShort(a, camera, day, total);
  }

  /** The bound is sharp: beyond it, for every total, some run hands out the name of an existing file. */
  lemma LongIndexReused(total: nat, camera: string, day: string)
    requires total > MAX_INDEX
    ensures var a := App(map[camera := Camera], map[Dir(camera, day) := [Entry(FileName(total % TWO32), true)]]);
            exists es :: AboutToReuse(Run(a, es), Key(camera), total)
  {
    LoneWrappedScan(total);
    LoneDirectory(camera, day, Entry(FileName(total % TWO32), true), total);
  }

  /** No run from any disk reaches a capture with this total whose next name is taken. */
  ghost predicate SafeTotal(total: nat) {
    forall a, es, key :: CamerasOnly(a) ==> !AboutToReuse(Run(a, es), key, total)
  }

  /** A total is safe in every run exactly when it is at most 999999. */
  lemma TotalSafe(total: nat)
    ensures SafeTotal(total) <==> total <= MAX_INDEX
  {
    if total <= MAX_INDEX {
      forall a, es, key | CamerasOnly(a)
        ensures !AboutToReuse(Run(a, es), key, total)
      {
        if AboutToReuse(Run(a, es), key, total) {
          NeverOverwrites(a, es, key);
        }
      }
    } else {
      LongIndexReused(total, "", "");
      var a := App(map["" := Camera], map[Dir("", "") := [Entry(FileName(total % TWO32), true)]]);
      var es :| AboutToReuse(Run(a, es), Key(""), total);
      assert CamerasOnly(a);
    }
  }

  /** Such as "file--1.avi", with a sign where a recording has digits. */
  function SignedName(d: char): string {
    "file--" + ([d] + ".avi")
  }

  lemma SignedDigit(d: char)
    requires IsDigit(d)
    ensures ScanIndex(SignedName(d)) == Some((0 - DigitValue(d)) % TWO32)
  {
    var name, u := SignedName(d), [d] + ".avi";
    assert "file-" <= name && name[5..] == "-" + u;
    assert ("-" + u)[0] == '-' && ("-" + u)[1..] == u;
    assert SkipBlanks("-" + u) == "-" + u;
    DigitRunConcat([d], ".avi", 5);
    assert u[..1] == [d] && [d][..0] == "" && Value([d]) == DigitValue(d);
  }

  lemma NegatedWord(v: int)
    requires 1 <= v <= 9
    ensures (0 - v) % TWO32 == TWO32 - v
    ensures (TWO32 - v + 1) % TWO32 == if v == 1 then 0 else TWO32 - v + 1
  {
  }

  lemma LoneStart(name: string, n: nat)
    requires ScanIndex(name) == Some(n)
    ensures StartId([Entry(name, true)]) == (n + 1) % TWO32
  {
    assert [Entry(name, true)][..0] == [];
  }

  /** A sign wraps the scan: alone, "file--1.avi" gives start 0, and "file--2.avi" one below 2^32. */
  lemma SignedStart(d: char)
    requires '1' <= d <= '9'
    ensures ScanIndex(SignedName(d)) == Some(TWO32 - DigitValue(d))
    ensures StartId([Entry(SignedName(d), true)]) == if d == '1' then 0 else TWO32 - DigitValue(d) + 1
  {
    SignedDigit(d);
    NegatedWord(DigitValue(d));
    LoneStart(SignedName(d), TWO32 - DigitValue(d));
  }

  /** Beside "file--2.avi" the second fragment of a recording wraps to index 0 and takes the name of file 0. */
  lemma WrappedReuse(camera: string, day: string)
    ensures var dir := [Entry(SignedName('2'), true), Entry(FileName(0), true)];
            var a := App(map[camera := Camera], map[Dir(camera, day) := dir]);
            var b := Run(a, [Start(camera, day, true)] + Fragments(camera, 1));
            && AboutToReuse(b, Key(camera), TWO32) && FragmentIndex(b.pipelines[Key(camera)]) == 0
  {
    var dir := [Entry(SignedName('2'), true), Entry(FileName(0), true)];
    var a := App(map[camera := Camera], map[Dir(camera, day) := dir]);
    SignedStart('2');
    ScanExact(0);
    assert dir[..1] == [Entry(SignedName('2'), true)];
    assert StartId(dir) == TWO32 - 1;
    RunFragments(a, day, camera, 1, FileName(0));
    var b := Run(a, [Start(camera, day, true)] + Fragments(camera, 1));
    ReuseAt(b, Key(camera), Capture(Dir(camera, day), TWO32 - 1, 1), TWO32);
  }
}
