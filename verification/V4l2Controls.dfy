/**
 The control index of libs/camera-pipes/util/v4l2_util.cpp and v4l2_util.hpp: an enumeration
 loop over the driver's controls that fills three maps, and the lookups over them.
 */
module V4l2Controls {
  import opened CInt
  import opened Wrappers

  const CID_BASE: nat := 0x0098_0900

  datatype Kind = Menu | IntegerMenu | Other

  datatype Ctrl = Ctrl(id: nat, name: string, kind: Kind, compound: bool, minimum: int, maximum: int, step: int)

  /** The driver's controls by increasing id, and its menu items by control and index. */
  datatype Device = Device(ctrls: seq<Ctrl>, items: map<(nat, int), string>)

  predicate IsMenu(c: Ctrl) {
    c.kind == Menu || c.kind == IntegerMenu
  }

  predicate Increasing(ctrls: seq<Ctrl>) {
    forall i, j :: 0 <= i < j < |ctrls| ==> ctrls[i].id < ctrls[j].id
  }

  /** What V4L2 promises of a driver: increasing ids, and menus that step forward. */
  predicate WellFormed(dev: Device) {
    && Increasing(dev.ctrls)
    && (forall i :: 0 <= i < |dev.ctrls| && IsMenu(dev.ctrls[i]) ==> dev.ctrls[i].step > 0)
  }

  // ---- VIDIOC_QUERY_EXT_CTRL ----

  /** The position, from k on, of the control that a query for an id or for the next id selects. */
  function Select(ctrls: seq<Ctrl>, id: nat, next: bool, k: nat): (r: nat)
    requires k <= |ctrls|
    ensures k <= r <= |ctrls|
    decreases |ctrls| - k
  {
    if k == |ctrls| then k
    else if (if next then ctrls[k].id > id && !ctrls[k].compound else ctrls[k].id == id) then k
    else Select(ctrls, id, next, k + 1)
  }

  function QueryExtCtrl(dev: Device, id: nat, next: bool): Option<Ctrl> {
    var k := Select(dev.ctrls, id, next, 0);
    if k < |dev.ctrls| then Some(dev.ctrls[k]) else None
  }

  // ---- What the loop should collect ----

  /** The controls from position k on that are not compound. */
  function Simple(ctrls: seq<Ctrl>, k: nat): seq<Ctrl>
    requires k <= |ctrls|
    decreases |ctrls| - k
  {
    if k == |ctrls| then []
    else if ctrls[k].compound then Simple(ctrls, k + 1)
    else [ctrls[k]] + Simple(ctrls, k + 1)
  }

  /** The control at position k, if there is one, and the simple controls behind it. */
  function Tail(ctrls: seq<Ctrl>, k: nat): seq<Ctrl>
    requires k <= |ctrls|
  {
    if k == |ctrls| then [] else [ctrls[k]] + Simple(ctrls, k + 1)
  }

  function Enumeration(dev: Device): seq<Ctrl> {
    Tail(dev.ctrls, Select(dev.ctrls, CID_BASE, false, 0))
  }

  /** `std::map::insert`: an existing entry of the key stays. */
  function InsertNew<K, V>(m: map<K, V>, k: K, v: V): map<K, V> {
    if k in m then m else m[k := v]
  }

  function ById(s: seq<Ctrl>): map<nat, Ctrl> {
    if s == [] then map[] else InsertNew(ById(s[..|s| - 1]), s[|s| - 1].id, s[|s| - 1])
  }

  function IdByName(s: seq<Ctrl>): map<string, nat> {
    if s == [] then map[] else InsertNew(IdByName(s[..|s| - 1]), s[|s| - 1].name, s[|s| - 1].id)
  }

  /** The indices a control's menu loop visits. */
  predicate Visited(c: Ctrl, i: int)
    requires c.step > 0
  {
    c.minimum <= i && (i - c.minimum) % c.step == 0
  }

  /** The valid menu items of a control at the visited indices below `end`. */
  function MenuBelow(dev: Device, c: Ctrl, end: int): map<int, string>
    requires c.step > 0
  {
    map i: int | c.minimum <= i < end && Visited(c, i) && (c.id, i) in dev.items :: dev.items[(c.id, i)]
  }

  /** A menu holds exactly the driver's items from the minimum up to the maximum, by steps. */
  ghost predicate MenuComplete(dev: Device, c: Ctrl, menu: map<int, string>) {
    && c.step > 0
    && (forall i :: i in menu <==>
          c.minimum <= i <= c.maximum && (i - c.minimum) % c.step == 0 && (c.id, i) in dev.items)
    && (forall i :: i in menu ==> menu[i] == dev.items[(c.id, i)])
  }

  /** After some queries that found the first controls of the enumeration, position `pos` comes next. */
  ghost predicate At(dev: Device, current: nat, next: bool, pos: nat, calls: nat) {
    && pos <= |dev.ctrls| && calls <= |Enumeration(dev)|
    && Select(dev.ctrls, current, next, 0) == pos
    && Enumeration(dev)[calls..] == Tail(dev.ctrls, pos)
  }

  // ---- The class ----

  class V4l2Util {
    var deviceCtrl: map<nat, Ctrl>
    var deviceCtrlByName: map<string, nat>
    var menuEntries: map<nat, map<int, string>>

    constructor ()
    {
      deviceCtrl, deviceCtrlByName, menuEntries := map[], map[], map[];
    }

    /** `insert` into both maps. */
    method Insert(c: Ctrl, ghost seen: seq<Ctrl>)
      requires deviceCtrl == ById(seen) && deviceCtrlByName == IdByName(seen)
      modifies this`deviceCtrl, this`deviceCtrlByName
      ensures deviceCtrl == ById(seen + [c]) && deviceCtrlByName == IdByName(seen + [c])
    {
      SnocMaps(seen, c);
      if c.id !in deviceCtrl {
        deviceCtrl := deviceCtrl[c.id := c];
      }
      if c.name !in deviceCtrlByName {
        deviceCtrlByName := deviceCtrlByName[c.name := c.id];
      }
    }

    /** The enumeration loop; `errorAt` is the number of the query that fails with an unexpected error. */
    method ProbeControls(dev: Device, errorAt: Option<nat>) returns (ok: bool)
      requires WellFormed(dev) && deviceCtrl == map[] && deviceCtrlByName == map[]
      modifies this`deviceCtrl, this`deviceCtrlByName
      ensures ok <==> errorAt == None || errorAt.value > |Enumeration(dev)|
      ensures ok ==> deviceCtrl == ById(Enumeration(dev))
      ensures ok ==> deviceCtrlByName == IdByName(Enumeration(dev))
    {
      var current, next := CID_BASE, false;
      var calls := 0;
      ghost var pos := Select(dev.ctrls, CID_BASE, false, 0);
      ghost var all := Enumeration(dev);
      while true
        invariant At(dev, current, next, pos, calls)
        invariant deviceCtrl == ById(all[..calls]) && deviceCtrlByName == IdByName(all[..calls])
        invariant errorAt.Some? ==> errorAt.value >= calls
        decreases |dev.ctrls| - pos
      {
        if errorAt == Some(calls) {
          return false;
        }
        NextQuery(dev, current, next, pos, calls);
        var found := QueryExtCtrl(dev, current, next);
        if found.None? {
          return true;
        }
        var c := found.value;
        Insert(c, all[..calls]);
        current, next := c.id, true;
        pos := Select(dev.ctrls, c.id, true, 0);
        calls := calls + 1;
      }
    }

    /** The menu loop for one control; indices the driver rejects are skipped. */
    method ReadMenu(dev: Device, c: Ctrl) returns (menu: map<int, string>)
      requires c.step > 0
      ensures MenuComplete(dev, c, menu)
    {
      menu := map[];
      var i := c.minimum;
      assert 0 % c.step == 0;
      while i <= c.maximum
        invariant Visited(c, i)
        invariant menu == MenuBelow(dev, c, if i <= c.maximum then i else c.maximum + 1)
        decreases c.maximum - i
      {
        MenuStep(dev, c, i, if i + c.step <= c.maximum then i + c.step else c.maximum + 1);
        if (c.id, i) in dev.items {
          menu := menu[i := dev.items[(c.id, i)]];
        }
        ModAddMultiple(i - c.minimum, 1, c.step);
        i := i + c.step;
      }
    }

    /** The second loop of `v4l2_probe_ctrl`, over the controls found. */
    method ReadMenus(dev: Device)
      requires menuEntries == map[]
      requires forall id :: id in deviceCtrl ==> deviceCtrl[id].id == id
      requires forall id :: id in deviceCtrl && IsMenu(deviceCtrl[id]) ==> deviceCtrl[id].step > 0
      modifies this`menuEntries
      ensures forall id :: id in menuEntries <==> id in deviceCtrl && IsMenu(deviceCtrl[id])
      ensures forall id :: id in menuEntries ==> MenuComplete(dev, deviceCtrl[id], menuEntries[id])
    {
      var todo := deviceCtrl.Keys;
      while todo != {}
        invariant todo <= deviceCtrl.Keys
        invariant forall id :: id in menuEntries <==> id in deviceCtrl && id !in todo && IsMenu(deviceCtrl[id])
        invariant forall id :: id in menuEntries ==> MenuComplete(dev, deviceCtrl[id], menuEntries[id])
        decreases |todo|
      {
        var id :| id in todo;
        var c := deviceCtrl[id];
        if IsMenu(c) {
          var menu := ReadMenu(dev, c);
          menuEntries := menuEntries[c.id := menu];
        }
        todo := todo - {id};
      }
    }

    /** `v4l2_probe_ctrl`: afterwards the three maps agree with one enumeration of the driver. */
    method ProbeCtrl(dev: Device, capOk: bool, errorAt: Option<nat>) returns (ok: bool)
      requires WellFormed(dev)
      modifies this
      ensures ok <==> capOk && (errorAt == None || errorAt.value > |Enumeration(dev)|)
      ensures ok ==> Indexed(dev)
    {
      deviceCtrl, deviceCtrlByName, menuEntries := map[], map[], map[];
      if !capOk {
        return false;
      }
      ok := ProbeControls(dev, errorAt);
      if !ok {
        return;
      }
      EnumerationIndex(dev);
      ReadMenus(dev);
    }

    /** The maps describe one enumeration of the driver. */
    ghost predicate Indexed(dev: Device)
      requires WellFormed(dev)
      reads this
    {
      && deviceCtrl == ById(Enumeration(dev)) && deviceCtrlByName == IdByName(Enumeration(dev))
      && (forall id :: id in menuEntries <==>
            id in deviceCtrl && (deviceCtrl[id].kind == Menu || deviceCtrl[id].kind == IntegerMenu))
      && (forall id :: id in menuEntries ==> MenuComplete(dev, deviceCtrl[id], menuEntries[id]))
    }

    function GetCtrlIdByName(name: string): Option<nat>
      reads this
    {
      if name in deviceCtrlByName then Some(deviceCtrlByName[name]) else None
    }

    function GetCtrlById(id: nat): Option<Ctrl>
      reads this
    {
      if id in deviceCtrl then Some(deviceCtrl[id]) else None
    }

    function GetCtrlByName(name: string): Option<Ctrl>
      reads this
    {
      var id :- GetCtrlIdByName(name);
      GetCtrlById(id)
    }

    /** A lookup by name returns the first enumerated control of that name, or nothing if none has it. */
    lemma LookupByName(dev: Device, name: string)
      requires WellFormed(dev) && Indexed(dev)
      ensures forall c :: GetCtrlByName(name) == Some(c) <==> IsFirst(Enumeration(dev), name, c)
    {
      EnumerationIndex(dev);
      FirstNamedIsIndexed(Enumeration(dev), name);
      forall c
        ensures FirstNamed(Enumeration(dev), name) == Some(c) <==> IsFirst(Enumeration(dev), name, c)
      {
        FirstNamedIsFirst(Enumeration(dev), name, c);
      }
    }

    /**
     A lookup by id returns exactly the controls from the base up that are not compound; a menu
     control found has its complete menu, and no other control has one.
     */
    lemma LookupById(dev: Device, c: Ctrl)
      requires WellFormed(dev) && Indexed(dev)
      ensures GetCtrlById(c.id) == Some(c)
              <==> && c in dev.ctrls && (exists b :: b in dev.ctrls && b.id == CID_BASE)
                   && (c.id == CID_BASE || (c.id > CID_BASE && !c.compound))
      ensures GetCtrlById(c.id) == Some(c) ==>
                if c.kind == Menu || c.kind == IntegerMenu
                then c.id in menuEntries && MenuComplete(dev, c, menuEntries[c.id])
                else c.id !in menuEntries
    {
      EnumerationIndex(dev);
      EnumerationMembers(dev, c);
    }
  }

  lemma SnocMaps(s: seq<Ctrl>, c: Ctrl)
    ensures ById(s + [c]) == InsertNew(ById(s), c.id, c)
    ensures IdByName(s + [c]) == InsertNew(IdByName(s), c.name, c.id)
  {
    assert (s + [c])[..|s|] == s;
  }

  /** Asking for the control after the one at position p skips to positions behind p. */
  lemma {:induction false} SkipTo(ctrls: seq<Ctrl>, p: nat, k: nat)
    requires Increasing(ctrls) && p < |ctrls| && k <= p + 1
    ensures Select(ctrls, ctrls[p].id, true, k) == Select(ctrls, ctrls[p].id, true, p + 1)
    decreases p + 1 - k
  {
    if k <= p {
      SkipTo(ctrls, p, k + 1);
    }
  }

  /** What a query for the next control finds is the head of the remaining simple controls. */
  lemma {:induction false} SimpleFrom(ctrls: seq<Ctrl>, k: nat, id: nat)
    requires k <= |ctrls| && forall i :: k <= i < |ctrls| ==> ctrls[i].id > id
    ensures Simple(ctrls, k) == Tail(ctrls, Select(ctrls, id, true, k))
    decreases |ctrls| - k
  {
    if k < |ctrls| && ctrls[k].compound {
      SimpleFrom(ctrls, k + 1, id);
    }
  }

  /** One turn of the loop: the enumeration moves on by one control. */
  lemma Advance(ctrls: seq<Ctrl>, p: nat)
    requires Increasing(ctrls) && p < |ctrls|
    ensures var p' := Select(ctrls, ctrls[p].id, true, 0);
            p < p' && Tail(ctrls, p) == [ctrls[p]] + Tail(ctrls, p')
  {
    SkipTo(ctrls, p, 0);
    SimpleFrom(ctrls, p + 1, ctrls[p].id);
  }

  // ---- The enumeration ----

  lemma VisitedGap(c: Ctrl, i: int, j: int)
    requires c.step > 0 && Visited(c, i) && Visited(c, j) && i <= j < i + c.step
    ensures i == j
  {
    MultipleGap(i - c.minimum, j - c.minimum, c.step);
  }

  lemma MenuStep(dev: Device, c: Ctrl, i: int, end: int)
    requires c.step > 0 && i < end <= i + c.step && Visited(c, i)
    ensures MenuBelow(dev, c, end)
            == if (c.id, i) in dev.items then MenuBelow(dev, c, i)[i := dev.items[(c.id, i)]] else MenuBelow(dev, c, i)
  {
    forall j | i <= j < end && Visited(c, j)
      ensures j == i
    {
      VisitedGap(c, i, j);
    }
  }

  lemma {:induction false} SimpleMembers(ctrls: seq<Ctrl>, k: nat, c: Ctrl)
    requires k <= |ctrls|
    ensures c in Simple(ctrls, k) <==> c in ctrls[k..] && !c.compound
    decreases |ctrls| - k
  {
    if k < |ctrls| {
      SimpleMembers(ctrls, k + 1, c);
      assert ctrls[k..] == [ctrls[k]] + ctrls[k + 1..];
    }
  }

  lemma {:induction false} SelectExact(ctrls: seq<Ctrl>, id: nat, k: nat)
    requires k <= |ctrls|
    ensures var r := Select(ctrls, id, false, k);
            && (r < |ctrls| ==> ctrls[r].id == id)
            && (forall i :: k <= i < r ==> ctrls[i].id != id)
    decreases |ctrls| - k
  {
    if k < |ctrls| && ctrls[k].id != id {
      SelectExact(ctrls, id, k + 1);
    }
  }

  lemma EnumerationMembers(dev: Device, c: Ctrl)
    requires WellFormed(dev)
    ensures c in Enumeration(dev)
            <==> && c in dev.ctrls && (exists b :: b in dev.ctrls && b.id == CID_BASE)
                 && (c.id == CID_BASE || (c.id > CID_BASE && !c.compound))
  {
    var k := Select(dev.ctrls, CID_BASE, false, 0);
    SelectExact(dev.ctrls, CID_BASE, 0);
    if k < |dev.ctrls| {
      SimpleMembers(dev.ctrls, k + 1, c);
      assert dev.ctrls[k] in dev.ctrls;
    }
  }

  lemma IncreasingCons(c: Ctrl, s: seq<Ctrl>)
    requires Increasing(s) && forall x :: x in s ==> c.id < x.id
    ensures Increasing([c] + s)
  {
  }

  lemma TailAbove(ctrls: seq<Ctrl>, k: nat)
    requires Increasing(ctrls) && k < |ctrls|
    ensures forall x :: x in Simple(ctrls, k + 1) ==> ctrls[k].id < x.id
  {
    forall x | x in Simple(ctrls, k + 1)
      ensures ctrls[k].id < x.id
    {
      SimpleMembers(ctrls, k + 1, x);
    }
  }

  lemma {:induction false} SimpleIncreasing(ctrls: seq<Ctrl>, k: nat)
    requires Increasing(ctrls) && k <= |ctrls|
    ensures Increasing(Simple(ctrls, k))
    decreases |ctrls| - k
  {
    if k < |ctrls| {
      SimpleIncreasing(ctrls, k + 1);
      if !ctrls[k].compound {
        TailAbove(ctrls, k);
        IncreasingCons(ctrls[k], Simple(ctrls, k + 1));
      }
    }
  }

  lemma EnumerationIncreasing(dev: Device)
    requires WellFormed(dev)
    ensures Increasing(Enumeration(dev))
  {
    var k := Select(dev.ctrls, CID_BASE, false, 0);
    if k < |dev.ctrls| {
      SimpleIncreasing(dev.ctrls, k + 1);
      TailAbove(dev.ctrls, k);
      IncreasingCons(dev.ctrls[k], Simple(dev.ctrls, k + 1));
    }
  }

  /** With distinct ids the index by id holds each control of the sequence, and only those. */
  lemma {:induction false} ByIdIs(s: seq<Ctrl>, c: Ctrl)
    requires Increasing(s)
    ensures c in s <==> c.id in ById(s) && ById(s)[c.id] == c
  {
    if s != [] {
      var s', last := s[..|s| - 1], s[|s| - 1];
      ByIdIs(s', c);
      ByIdKeys(s', last.id);
      assert s == s' + [last];
      assert last.id !in ById(s') by {
        assert forall i :: 0 <= i < |s'| ==> s'[i].id < last.id;
      }
    }
  }

  lemma {:induction false} ByIdKeys(s: seq<Ctrl>, id: nat)
    ensures id in ById(s) ==> ById(s)[id] in s && ById(s)[id].id == id
  {
    if s != [] {
      ByIdKeys(s[..|s| - 1], id);
      assert forall c :: c in s[..|s| - 1] ==> c in s;
    }
  }

  lemma EnumerationIndex(dev: Device)
    requires WellFormed(dev)
    ensures forall c :: c in Enumeration(dev) <==> c.id in ById(Enumeration(dev)) && ById(Enumeration(dev))[c.id] == c
    ensures forall id :: id in ById(Enumeration(dev)) ==>
              ById(Enumeration(dev))[id].id == id && ById(Enumeration(dev))[id] in dev.ctrls
  {
    var s := Enumeration(dev);
    EnumerationIncreasing(dev);
    forall c
      ensures c in s <==> c.id in ById(s) && ById(s)[c.id] == c
    {
      ByIdIs(s, c);
    }
    forall id | id in ById(s)
      ensures ById(s)[id].id == id && ById(s)[id] in dev.ctrls
    {
      ByIdKeys(s, id);
      EnumerationMembers(dev, ById(s)[id]);
    }
  }

  function FirstNamed(s: seq<Ctrl>, name: string): Option<Ctrl> {
    if s == [] then None
    else if s[0].name == name then Some(s[0])
    else FirstNamed(s[1..], name)
  }

  /** The first control of the sequence that has the name. */
  ghost predicate IsFirst(s: seq<Ctrl>, name: string, c: Ctrl) {
    exists i :: 0 <= i < |s| && s[i] == c && c.name == name && forall j :: 0 <= j < i ==> s[j].name != name
  }

  lemma {:induction false} FirstNamedIsFirst(s: seq<Ctrl>, name: string, c: Ctrl)
    ensures FirstNamed(s, name) == Some(c) <==> IsFirst(s, name, c)
  {
    if s != [] && s[0].name != name {
      var rest := s[1..];
      FirstNamedIsFirst(rest, name, c);
      if IsFirst(rest, name, c) {
        var i :| 0 <= i < |rest| && rest[i] == c && c.name == name && forall j :: 0 <= j < i ==> rest[j].name != name;
        assert s[i + 1] == c && forall j :: 0 < j < i + 1 ==> s[j] == rest[j - 1];
      }
      if IsFirst(s, name, c) {
        var i :| 0 <= i < |s| && s[i] == c && c.name == name && forall j :: 0 <= j < i ==> s[j].name != name;
        assert rest[i - 1] == c && forall j :: 0 <= j < i - 1 ==> rest[j] == s[j + 1];
      }
    }
  }

  lemma {:induction false} FirstNamedSnoc(s: seq<Ctrl>, c: Ctrl, name: string)
    ensures FirstNamed(s + [c], name)
            == if FirstNamed(s, name).Some? then FirstNamed(s, name)
               else if c.name == name then Some(c) else None
  {
    if s != [] && s[0].name != name {
      assert (s + [c])[1..] == s[1..] + [c];
      FirstNamedSnoc(s[1..], c, name);
    }
  }

  lemma {:induction false} FirstNamedIsIndexed(s: seq<Ctrl>, name: string)
    ensures name in IdByName(s) <==> FirstNamed(s, name).Some?
    ensures name in IdByName(s) ==>
              FirstNamed(s, name).value in s && IdByName(s)[name] == FirstNamed(s, name).value.id
  {
    if s != [] {
      var s', last := s[..|s| - 1], s[|s| - 1];
      assert s == s' + [last];
      FirstNamedIsIndexed(s', name);
      FirstNamedSnoc(s', last, name);
    }
  }

  /** One query: the end of the enumeration, or its next control. */
  lemma NextQuery(dev: Device, current: nat, next: bool, pos: nat, calls: nat)
    requires WellFormed(dev) && At(dev, current, next, pos, calls)
    ensures pos == |dev.ctrls| ==>
              QueryExtCtrl(dev, current, next) == None && Enumeration(dev)[..calls] == Enumeration(dev)
              && calls == |Enumeration(dev)|
    ensures pos < |dev.ctrls| ==>
              var c := dev.ctrls[pos];
              var pos' := Select(dev.ctrls, c.id, true, 0);
              && QueryExtCtrl(dev, current, next) == Some(c)
              && pos < pos' && calls < |Enumeration(dev)| && At(dev, c.id, true, pos', calls + 1)
              && Enumeration(dev)[..calls + 1] == Enumeration(dev)[..calls] + [c]
  {
    var all := Enumeration(dev);
    if pos < |dev.ctrls| {
      Advance(dev.ctrls, pos);
      assert all[calls..][0] == dev.ctrls[pos];
      assert all[calls + 1..] == all[calls..][1..];
    }
  }
}
