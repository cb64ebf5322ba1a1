/** The network widget of bar/module/network.js: one icon per Ethernet or
    Wi-Fi device, coloured by the device's state, with a small cross shown
    while the device is unavailable. Each tracked device is an entry object
    whose `update` re-reads the device's IP detail record and re-draws it;
    device activity signals are routed to the entry they concern.

    The records come from `getAllDeviceInfoIPDetail` and
    `getDeviceInfoIPDetail` of lib/NetworkManager.js (module Overview);
    the overview they are computed from is a parameter, as is the handle
    `getElementById` returns for an entry's cross icon. */
module NetworkWidget {
  import opened Common
  import opened JsValue
  import opened Overview

  const DeviceIface: string := "org.freedesktop.NetworkManager.Device"

  /** Sentinel of an entry whose cross icon has not been looked up. */
  const NoCross: int := -1

  /** The colours and the `network.showUnavailable` list of the bar's
      configuration. */
  datatype NetConfig = NetConfig(colour: string, disabledColour: string, showUnavailable: seq<string>)

  /** `connectionIcon[type]`: the Ethernet and Wi-Fi glyphs, `undefined`
      for any other type. */
  function ConnectionIcon(typeName: string): (r: Option<string>)
    ensures r.Some? <==> typeName == "ethernet" || typeName == "wifi"
  {
    if typeName == "ethernet" then Some([0xF0200 as char])
    else if typeName == "wifi" then Some([0xF1EB as char])
    else None
  }

  /** `stateColour[state]`: the colour for connected, the disabled colour
      for disconnected and unavailable, `undefined` for every other state. */
  function StateColour(state: string, cfg: NetConfig): (r: Option<string>)
    ensures r.Some? <==> state in {"connected", "disconnected", "unavailable"}
  {
    if state == "connected" then Some(cfg.colour)
    else if state == "disconnected" || state == "unavailable" then Some(cfg.disabledColour)
    else None
  }

  /** The devices `init` tracks. */
  predicate IsTracked(d: IpDetail)
  {
    d.typeName == "ethernet" || d.typeName == "wifi"
  }

  /** `allConnections.filter(i => ['ethernet','wifi'].includes(i.type))`. */
  function Tracked(all: seq<IpDetail>): (r: seq<IpDetail>)
    ensures |r| <= |all|
    decreases |all|
  {
    if all == [] then []
    else
      var n := |all| - 1;
      if IsTracked(all[n]) then Tracked(all[..n]) + [all[n]] else Tracked(all[..n])
  }

  // ---------------------------------------------------------------------
  // One entry
  // ---------------------------------------------------------------------

  /** An entry's state: its last record (None once a lookup found no
      device, after which every access to it throws), the cross icon
      handle, whether its element is attached to the bar, whether the
      cross is enabled, and the element's text and colour (None where
      they were set to `undefined`). */
  datatype Entry = Entry(
    status: Option<IpDetail>,
    crossIcon: int,
    attached: bool,
    crossEnabled: bool,
    text: Option<string>,
    colour: Option<string>)

  /** An entry as `init` pushes it: not yet attached, labelled '?'. */
  function InitialEntry(d: IpDetail, cfg: NetConfig): (e: Entry)
    ensures e.status == Some(d) && !e.attached && e.crossIcon == NoCross
    ensures e.text == Some("?") && e.colour == Some(cfg.colour)
  {
    Entry(Some(d), NoCross, false, true, Some("?"), Some(cfg.colour))
  }

  /** The state `update` leaves behind. With no record nothing happens (the
      access to `status.device` throws first). Otherwise the cross icon is
      looked up if still unknown, the record is replaced by a fresh lookup
      of the same device name, and the element is detached; it is drawn
      and attached again only when the fresh record exists and the device
      is not an unavailable one that is to be hidden. */
  function Updated(e: Entry, showUnavailable: bool, devices: seq<DeviceSummary>, crossHandle: int, cfg: NetConfig): (t: Entry)
    ensures e.status.None? ==> t == e
    ensures e.status.Some? ==> t.crossIcon == (if e.crossIcon == NoCross then crossHandle else e.crossIcon)
    ensures e.status.Some? ==> t.status == DeviceInfoIPDetail(Show(OptionText(e.status.value.device)), devices)
    ensures e.status.Some? ==>
      (t.attached <==> t.status.Some? && (t.status.value.state != "unavailable" || showUnavailable))
    ensures e.status.Some? && t.attached ==>
      t.crossEnabled == (t.status.value.state == "unavailable") &&
      t.text == ConnectionIcon(t.status.value.typeName) &&
      t.colour == StateColour(t.status.value.state, cfg)
    ensures !t.attached ==> t.crossEnabled == e.crossEnabled && t.text == e.text && t.colour == e.colour
  {
    match e.status
    case None => e
    case Some(s) =>
      var cross := if e.crossIcon == NoCross then crossHandle else e.crossIcon;
      var found := DeviceInfoIPDetail(Show(OptionText(s.device)), devices);
      var detached := e.(status := found, crossIcon := cross, attached := false);
      match found
      case None => detached
      case Some(f) =>
        if f.state == "unavailable" && !showUnavailable then detached
        else detached.(crossEnabled := f.state == "unavailable", text := ConnectionIcon(f.typeName),
                       colour := StateColour(f.state, cfg), attached := true)
  }

  class Connection {
    var status: Option<IpDetail>
    const showUnavailable: bool
    var crossIcon: int
    var attached: bool
    var crossEnabled: bool
    var text: Option<string>
    var colour: Option<string>

    ghost function View(): Entry
      reads this
    {
      Entry(status, crossIcon, attached, crossEnabled, text, colour)
    }

    constructor(d: IpDetail, showUnavailable: bool, cfg: NetConfig)
      ensures View() == InitialEntry(d, cfg)
      ensures this.showUnavailable == showUnavailable
    {
      status := Some(d);
      this.showUnavailable := showUnavailable;
      crossIcon := NoCross;
      attached := false;
      crossEnabled := true;
      text := Some("?");
      colour := Some(cfg.colour);
    }

    /** The entry's `update()`. */
    method Update(devices: seq<DeviceSummary>, crossHandle: int, cfg: NetConfig)
      modifies this
      ensures View() == Updated(old(View()), showUnavailable, devices, crossHandle, cfg)
    {
      if status.None? {
        return;
      }
      if crossIcon == NoCross {
        crossIcon := crossHandle;
      }
      status := DeviceInfoIPDetail(Show(OptionText(status.value.device)), devices);
      attached := false;
      if status.None? {
        return;
      }
      if status.value.state == "unavailable" && !showUnavailable {
        return;
      }
      crossEnabled := status.value.state == "unavailable";
      text := ConnectionIcon(status.value.typeName);
      colour := StateColour(status.value.state, cfg);
      attached := true;
    }
  }

  // ---------------------------------------------------------------------
  // Routing of activity events
  // ---------------------------------------------------------------------

  /** `a == b` for a nullish a, the one case the router compares: true
      exactly when b is nullish too. */
  predicate LooseEqualsNullish(a: Value, b: Value)
    requires Nullish(a)
  {
    Nullish(b)
  }

  /** What an activity event leads to: nothing, an exception (an entry
      without a record, whose `status.devPath` throws, reached before any
      match), or an update of the entry at index. */
  datatype Routing = Ignore | Fail | UpdateEntry(index: nat)

  /** An entry the `find` steps over: it has a record whose `devPath` does
      not loosely equal the path. */
  predicate Passed(status: Option<IpDetail>, path: Value)
  {
    status.Some? && !LooseEqualsNullish(Field(status.value, "devPath"), path)
  }

  /** The `find` over the entries from position i, comparing
      `status.devPath == path` as written. */
  function FindEntry(statuses: seq<Option<IpDetail>>, path: Value, i: nat): (r: Routing)
    requires i <= |statuses|
    ensures r.UpdateEntry? ==> i <= r.index < |statuses| && statuses[r.index].Some?
    ensures r.UpdateEntry? ==> (LooseEqualsNullish(Field(statuses[r.index].value, "devPath"), path) &&
      forall j :: i <= j < r.index ==> Passed(statuses[j], path))
    ensures r.Fail? ==> exists k :: (i <= k < |statuses| && statuses[k].None? &&
      forall j :: i <= j < k ==> Passed(statuses[j], path))
    ensures r.Ignore? <==> forall j :: i <= j < |statuses| ==> Passed(statuses[j], path)
    decreases |statuses| - i
  {
    if i == |statuses| then Ignore
    else if statuses[i].None? then Fail
    else if LooseEqualsNullish(Field(statuses[i].value, "devPath"), path) then UpdateEntry(i)
    else FindEntry(statuses, path, i + 1)
  }

  /** The activity handler's decision for an event. */
  function RouteOf(statuses: seq<Option<IpDetail>>, event: Value): (r: Routing)
    ensures Nullish(event) ==> r == Fail
    ensures !Nullish(event) && Get(event, "interface") != Str(DeviceIface) ==> r == Ignore
    ensures r.UpdateEntry? ==> r.index < |statuses| && statuses[r.index].Some?
  {
    if Nullish(event) then Fail
    else if Get(event, "interface") != Str(DeviceIface) then Ignore
    else FindEntry(statuses, Get(event, "path"), 0)
  }

  function StatusesOf(cs: seq<Connection>): (r: seq<Option<IpDetail>>)
    reads set c | c in cs
    ensures |r| == |cs|
    ensures forall k :: 0 <= k < |cs| ==> r[k] == cs[k].status
  {
    if cs == [] then [] else [cs[0].status] + StatusesOf(cs[1..])
  }

  class Network {
    const cfg: NetConfig
    /** `this.connections`. */
    var connections: seq<Connection>

    ghost predicate Valid()
      reads this
    {
      forall j, k :: 0 <= j < k < |connections| ==> connections[j] != connections[k]
    }

    constructor(cfg: NetConfig)
      ensures Valid() && this.cfg == cfg && connections == []
    {
      this.cfg := cfg;
      connections := [];
    }

    /** `init()`: one fresh entry per tracked record of
        `getAllDeviceInfoIPDetail` (None where it throws), in order, each
        showing its device while unavailable when the configuration lists
        its type. */
    method Init(devices: Option<seq<DeviceSummary>>)
      modifies this
      ensures Valid()
      ensures devices.None? ==> connections == []
      ensures devices.Some? ==>
        var tracked := Tracked(AllDeviceInfoIPDetail(devices.value));
        |connections| == |tracked| &&
        forall k :: 0 <= k < |tracked| ==>
          fresh(connections[k]) && connections[k].View() == InitialEntry(tracked[k], cfg) &&
          connections[k].showUnavailable == (tracked[k].typeName in cfg.showUnavailable)
    {
      connections := [];
      if devices.None? {
        return;
      }
      AddEntries(Tracked(AllDeviceInfoIPDetail(devices.value)));
    }

    /** The loop of `init` that creates one entry per tracked record. */
    method AddEntries(tracked: seq<IpDetail>)
      requires connections == []
      modifies this
      ensures Valid()
      ensures |connections| == |tracked|
      ensures forall k :: 0 <= k < |tracked| ==>
        fresh(connections[k]) && connections[k].View() == InitialEntry(tracked[k], cfg) &&
        connections[k].showUnavailable == (tracked[k].typeName in cfg.showUnavailable)
    {
      var i := 0;
      while i < |tracked|
        invariant 0 <= i <= |tracked|
        invariant |connections| == i
        invariant forall k :: 0 <= k < i ==>
          fresh(connections[k]) && connections[k].View() == InitialEntry(tracked[k], cfg) &&
          connections[k].showUnavailable == (tracked[k].typeName in cfg.showUnavailable)
        invariant forall j, k :: 0 <= j < k < i ==> connections[j] != connections[k]
      {
        var c := new Connection(tracked[i], tracked[i].typeName in cfg.showUnavailable, cfg);
        connections := connections + [c];
        i := i + 1;
      }
    }

    /** The `find` of the activity handler, over the current entries. */
    method Route(event: Value) returns (r: Routing)
      ensures r == RouteOf(StatusesOf(connections), event)
    {
      if Nullish(event) {
        return Fail;
      }
      if Get(event, "interface") != Str(DeviceIface) {
        return Ignore;
      }
      var path := Get(event, "path");
      ghost var statuses := StatusesOf(connections);
      var i := 0;
      while i < |connections|
        invariant 0 <= i <= |connections|
        invariant FindEntry(statuses, path, i) == FindEntry(statuses, path, 0)
      {
        var st := connections[i].status;
        if st.None? {
          return Fail;
        }
        if LooseEqualsNullish(Field(st.value, "devPath"), path) {
          return UpdateEntry(i);
        }
        i := i + 1;
      }
      return Ignore;
    }

    /** The activity handler: the routed entry, if any, updates; every
        other entry, and the list, stay as they were. */
    method OnActivity(event: Value, devices: seq<DeviceSummary>, crossHandle: int)
      requires Valid()
      modifies set c | c in connections
      ensures connections == old(connections)
      ensures var r := RouteOf(old(StatusesOf(connections)), event);
        (r.UpdateEntry? ==>
          connections[r.index].View() ==
            Updated(old(connections[r.index].View()), connections[r.index].showUnavailable, devices, crossHandle, cfg)) &&
        forall k :: 0 <= k < |connections| && !(r.UpdateEntry? && r.index == k) ==>
          connections[k].View() == old(connections[k].View())
    {
      var r := Route(event);
      if r.UpdateEntry? {
        connections[r.index].Update(devices, crossHandle, cfg);
      }
    }
  }

  // ---------------------------------------------------------------------
  // Properties
  // ---------------------------------------------------------------------

  /** Only Ethernet and Wi-Fi records are tracked, and every one of them
      is. */
  lemma {:induction false} TrackedAreEthernetAndWifi(all: seq<IpDetail>)
    ensures forall d :: d in Tracked(all) <==> d in all && IsTracked(d)
    decreases |all|
  {
    if all != [] {
      var n := |all| - 1;
      TrackedAreEthernetAndWifi(all[..n]);
      assert all == all[..n] + [all[n]];
    }
  }

  /** The filter keeps the order: the records tracked from a list followed
      by another are those of the first list followed by those of the
      second. */
  lemma {:induction false} TrackedKeepsOrder(a: seq<IpDetail>, b: seq<IpDetail>)
    ensures Tracked(a + b) == Tracked(a) + Tracked(b)
    decreases |b|
  {
    if b == [] {
      assert a + b == a;
    } else {
      var n := |b| - 1;
      TrackedKeepsOrder(a, b[..n]);
      assert (a + b)[..|a + b| - 1] == a + b[..n];
    }
  }

  /** The records these widgets hold have no `devPath` field, so an event
      with a defined path updates no entry; only a path that is `undefined`
      or `null` matches, and then the first entry (unless an entry without
      a record comes first). */
  lemma {:induction false} DefinedPathMatchesNothing(statuses: seq<Option<IpDetail>>, path: Value, i: nat)
    requires i <= |statuses|
    ensures !Nullish(path) ==> !FindEntry(statuses, path, i).UpdateEntry?
    ensures Nullish(path) && i < |statuses| && statuses[i].Some? ==> FindEntry(statuses, path, i) == UpdateEntry(i)
    decreases |statuses| - i
  {
    if i < |statuses| && statuses[i].Some? {
      assert Field(statuses[i].value, "devPath") == Undefined;
      DefinedPathMatchesNothing(statuses, path, i + 1);
    }
  }

  /** Device signals carry the device's object path, so they never reach
      an entry; events of other interfaces are ignored. */
  lemma DeviceSignalsUpdateNothing(statuses: seq<Option<IpDetail>>, event: Value)
    requires !Nullish(Get(event, "path"))
    ensures !RouteOf(statuses, event).UpdateEntry?
  {
    DefinedPathMatchesNothing(statuses, Get(event, "path"), 0);
  }

  /** Once a lookup has found no device the entry is stuck: it stays
      detached and every later update does nothing. */
  lemma MissingRecordSticks(e: Entry, showUnavailable: bool, d1: seq<DeviceSummary>, d2: seq<DeviceSummary>,
                            h1: int, h2: int, cfg: NetConfig)
    requires e.status.Some?
    requires Updated(e, showUnavailable, d1, h1, cfg).status.None?
    ensures !Updated(e, showUnavailable, d1, h1, cfg).attached
    ensures Updated(Updated(e, showUnavailable, d1, h1, cfg), showUnavailable, d2, h2, cfg)
         == Updated(e, showUnavailable, d1, h1, cfg)
  {
  }

  /** The cross icon is looked up once: a second update keeps the handle
      the first one found, whatever the lookup would give now. */
  lemma CrossLookedUpOnce(e: Entry, showUnavailable: bool, d1: seq<DeviceSummary>, d2: seq<DeviceSummary>,
                          h1: int, h2: int, cfg: NetConfig)
    requires e.status.Some? && h1 != NoCross
    ensures Updated(e, showUnavailable, d1, h1, cfg).crossIcon == (if e.crossIcon == NoCross then h1 else e.crossIcon)
    ensures Updated(Updated(e, showUnavailable, d1, h1, cfg), showUnavailable, d2, h2, cfg).crossIcon
         == Updated(e, showUnavailable, d1, h1, cfg).crossIcon
  {
  }

  /** An unavailable device that is not to be shown is left detached with
      its old text and colour; one that is to be shown is attached with the
      cross enabled and the disabled colour. */
  lemma UnavailableDevices(e: Entry, showUnavailable: bool, devices: seq<DeviceSummary>, h: int, cfg: NetConfig)
    requires e.status.Some?
    requires var t := Updated(e, showUnavailable, devices, h, cfg); t.status.Some? && t.status.value.state == "unavailable"
    ensures var t := Updated(e, showUnavailable, devices, h, cfg);
      (!showUnavailable ==> !t.attached && t.text == e.text && t.colour == e.colour) &&
      (showUnavailable ==> t.attached && t.crossEnabled && t.colour == Some(cfg.disabledColour))
  {
  }
}
