/** The per-device summary `getOverview` of lib/NetworkManager.js builds,
    and the IP detail records `getDeviceInfoIPDetail` and
    `getAllDeviceInfoIPDetail` derive from it.

    The bus replies are inputs: a device's property bag (`dev`) and the
    details of the active connection on it (`ac`, `undefined` when there is
    none), both as parsed values. */
module Overview {
  import opened Common
  import opened JsValue
  import opened NmTables

  // ---------------------------------------------------------------------
  // Address and route text
  // ---------------------------------------------------------------------

  /** `metric !== undefined ? ' metric ' + metric : ''`. */
  function MetricSuffix(metric: Value): (r: string)
    ensures r == "" <==> metric.Undefined?
    ensures !metric.Undefined? ==> StartsWith(r, " metric ")
  {
    if metric.Undefined? then "" else " metric " + Show(metric)
  }

  /** One element of `addressData` as text: "addr/prefix" when the address
      (either spelling) is a string and the prefix (either spelling) is
      defined, else `undefined`. */
  function AddressText(a: Value): (r: Option<string>)
    ensures var addr := FirstField(a, ["address", "Address"]);
      var prefix := FirstField(a, ["prefix", "Prefix"]);
      && (r.Some? <==> addr.Str? && !prefix.Undefined?)
      && (r.Some? ==> r.value == addr.s + "/" + Show(prefix))
    ensures r.Some? ==> '/' in r.value
  {
    var addr := FirstField(a, ["address", "Address"]);
    var prefix := FirstField(a, ["prefix", "Prefix"]);
    if addr.Str? && !prefix.Undefined? then
      var t := addr.s + "/" + Show(prefix);
      assert t[|addr.s|] == '/';
      Some(t)
    else None
  }

  /** One element of `routes` as text. A route to `defaultDest` ('0.0.0.0'
      for IPv4, '::' for IPv6) or with prefix 0 that has a truthy gateway is
      "default via gw"; otherwise a route with a string destination and a
      defined prefix is "dest/prefix"; either may carry " metric m". */
  function RouteText(r: Value, defaultDest: string): (t: Option<string>)
    ensures var dest := FirstField(r, ["dest", "Dest"]);
      var prefix := FirstField(r, ["prefix", "Prefix"]);
      var isDefault := (dest == Str(defaultDest) || prefix == Num(0)) &&
                       Truthy(FirstField(r, ["gateway", "Gateway", "nextHop", "NextHop"]));
      && (t.None? <==> !isDefault && !(dest.Str? && !prefix.Undefined?))
      && (isDefault ==> StartsWith(t.value, "default via "))
      && (t.Some? && !isDefault ==> StartsWith(t.value, dest.s + "/"))
    ensures t.Some? ==> t.value != ""
  {
    var dest := FirstField(r, ["dest", "Dest"]);
    var prefix := FirstField(r, ["prefix", "Prefix"]);
    var gw := FirstField(r, ["gateway", "Gateway", "nextHop", "NextHop"]);
    var metric := FirstField(r, ["metric", "Metric"]);
    if (dest == Str(defaultDest) || prefix == Num(0)) && Truthy(gw) then
      Some("default via " + Show(gw) + MetricSuffix(metric))
    else if dest.Str? && !prefix.Undefined? then
      var t := dest.s + "/" + Show(prefix) + MetricSuffix(metric);
      assert t[..|dest.s| + 1] == dest.s + "/";
      Some(t)
    else None
  }

  /** `.filter(Boolean)` over the mapped texts: `undefined` and '' are
      dropped, the rest kept in order. */
  function Compact(xs: seq<Option<string>>): (r: seq<string>)
    ensures |r| <= |xs|
    ensures forall k :: 0 <= k < |r| ==> r[k] != "" && Some(r[k]) in xs
    ensures (forall k :: 0 <= k < |xs| ==> xs[k].None?) ==> r == []
    ensures forall k :: 0 <= k < |xs| && xs[k].Some? && xs[k].value != "" ==> xs[k].value in r
    ensures |xs| == 1 ==> r == (if xs[0].Some? && xs[0].value != "" then [xs[0].value] else [])
  {
    if xs == [] then []
    else
      var rest := Compact(xs[1..]);
      assert forall k :: 1 <= k < |xs| ==> xs[k] == xs[1..][k - 1];
      if xs[0].Some? && xs[0].value != "" then [xs[0].value] + rest else rest
  }

  /** Filtering distributes over concatenation, so the kept texts come out
      in the order of the input. */
  lemma {:induction false} CompactAppend(xs: seq<Option<string>>, ys: seq<Option<string>>)
    ensures Compact(xs + ys) == Compact(xs) + Compact(ys)
    decreases |xs|
  {
    if xs == [] {
      assert xs + ys == ys;
    } else {
      assert (xs + ys)[0] == xs[0];
      assert (xs + ys)[1..] == xs[1..] + ys;
      CompactAppend(xs[1..], ys);
    }
  }

  /** When no text is empty, filtering keeps exactly the defined ones. */
  lemma CompactOfTexts(texts: seq<Option<string>>)
    requires forall k :: 0 <= k < |texts| && texts[k].Some? ==> texts[k].value != ""
    ensures forall k :: 0 <= k < |texts| && texts[k].Some? ==> texts[k].value in Compact(texts)
    ensures forall k :: 0 <= k < |Compact(texts)| ==>
      exists j :: 0 <= j < |texts| && texts[j] == Some(Compact(texts)[k])
  {
    forall k | 0 <= k < |texts| && texts[k].Some?
      ensures texts[k].value in Compact(texts)
    {
      assert texts[k].value != "";
    }
    forall k | 0 <= k < |Compact(texts)|
      ensures exists j :: 0 <= j < |texts| && texts[j] == Some(Compact(texts)[k])
    {
      assert Some(Compact(texts)[k]) in texts;
    }
  }

  /** `items.map(AddressText)`. */
  function AddressTexts(items: seq<Value>): (r: seq<Option<string>>)
    ensures |r| == |items| && forall k :: 0 <= k < |items| ==> r[k] == AddressText(items[k])
    ensures forall k :: 0 <= k < |r| && r[k].Some? ==> '/' in r[k].value
  {
    seq(|items|, k requires 0 <= k < |items| => AddressText(items[k]))
  }

  /** `items.map(RouteText)`. */
  function RouteTexts(items: seq<Value>, defaultDest: string): (r: seq<Option<string>>)
    ensures |r| == |items| && forall k :: 0 <= k < |items| ==> r[k] == RouteText(items[k], defaultDest)
    ensures forall k :: 0 <= k < |r| && r[k].Some? ==> r[k].value != ""
  {
    seq(|items|, k requires 0 <= k < |items| => RouteText(items[k], defaultDest))
  }

  /** `Array.isArray(ac?.<ip>?.addressData) ? ....map(AddressText).filter(Boolean) : []`. */
  function InetList(ac: Value, ip: string): (r: seq<string>)
    ensures var data := Get(Get(ac, ip), "addressData");
      && (!data.Arr? ==> r == [])
      && (data.Arr? ==> forall k :: 0 <= k < |data.items| && AddressText(data.items[k]).Some? ==>
            AddressText(data.items[k]).value in r)
      && (data.Arr? ==> forall k :: 0 <= k < |r| ==>
            exists j :: 0 <= j < |data.items| && AddressText(data.items[j]) == Some(r[k]))
    ensures forall k :: 0 <= k < |r| ==> '/' in r[k]
  {
    var data := Get(Get(ac, ip), "addressData");
    if data.Arr? then
      var texts := AddressTexts(data.items);
      CompactOfTexts(texts);
      Compact(texts)
    else []
  }

  /** `Array.isArray(ac?.<ip>?.routes) ? ....map(RouteText).filter(Boolean) : []`. */
  function RouteList(ac: Value, ip: string, defaultDest: string): (r: seq<string>)
    ensures var data := Get(Get(ac, ip), "routes");
      && (!data.Arr? ==> r == [])
      && (data.Arr? ==> forall k :: 0 <= k < |data.items| && RouteText(data.items[k], defaultDest).Some? ==>
            RouteText(data.items[k], defaultDest).value in r)
      && (data.Arr? ==> forall k :: 0 <= k < |r| ==>
            exists j :: 0 <= j < |data.items| && RouteText(data.items[j], defaultDest) == Some(r[k]))
  {
    var data := Get(Get(ac, ip), "routes");
    if data.Arr? then
      var texts := RouteTexts(data.items, defaultDest);
      CompactOfTexts(texts);
      Compact(texts)
    else []
  }

  // ---------------------------------------------------------------------
  // The device summary
  // ---------------------------------------------------------------------

  datatype DeviceSummary = DeviceSummary(
    iface: Option<string>,
    status: string,
    connectedTo: Value,
    product: Option<string>,
    typeName: string,
    driver: Option<string>,
    mac: Option<string>,
    mode: string,
    mtu: Value,
    ip4Default: bool,
    inet4: seq<string>,
    route4: seq<string>,
    inet6: seq<string>,
    route6: seq<string>)

  /** The status shown for a device: the state name, except that a device
      with a named active connection in state 100 reads 'connected'. */
  function DeviceStatus(dev: Value, ac: Value): (r: string)
    ensures !Truthy(Get(ac, "id")) ==> r == StateOrUnknown(Get(dev, "State"))
    ensures Truthy(Get(ac, "id")) && Get(ac, "state") == Num(100) ==> r == "connected"
    ensures Truthy(Get(ac, "id")) && Get(ac, "state") != Num(100) ==> r == StateOrUnknown(Get(dev, "State"))
  {
    var stateStr := StateOrUnknown(Get(dev, "State"));
    if Truthy(Get(ac, "id")) then (if Get(ac, "state") == Num(100) then "connected" else stateStr)
    else stateStr
  }

  /** The summary of one device path. */
  function Summarize(dev: Value, ac: Value): (d: DeviceSummary)
    ensures d.mode == HwOrSw(d.typeName)
    ensures d.typeName == TypeOrUnknown(Get(dev, "DeviceType"))
    ensures d.iface == StringField(Get(dev, "Interface"))
    ensures d.status == DeviceStatus(dev, ac)
    ensures d.connectedTo == Get(ac, "id") && d.ip4Default == Truthy(Get(ac, "default"))
    ensures Get(dev, "Product").Str? ==> d.product == Some(Get(dev, "Product").s)
    ensures !Get(dev, "Product").Str? ==>
      (d.product.Some? <==> Get(dev, "Interface").Str? && Get(dev, "Interface").s != "") &&
      (d.product.Some? ==> d.product.value == Get(dev, "Interface").s)
    ensures d.driver == StringField(Get(dev, "Driver")) && d.mac == StringField(Get(dev, "HwAddress"))
    ensures d.mtu == Get(dev, "Mtu")
    ensures d.inet4 == InetList(ac, "ip4") && d.inet6 == InetList(ac, "ip6")
    ensures d.route4 == RouteList(ac, "ip4", "0.0.0.0") && d.route6 == RouteList(ac, "ip6", "::")
  {
    var iface := StringField(Get(dev, "Interface"));
    var typeStr := TypeOrUnknown(Get(dev, "DeviceType"));
    var product := if Get(dev, "Product").Str? then Some(Get(dev, "Product").s)
                   else if iface.Some? && iface.value != "" then iface else None;
    DeviceSummary(
      iface,
      DeviceStatus(dev, ac),
      Get(ac, "id"),
      product,
      typeStr,
      StringField(Get(dev, "Driver")),
      StringField(Get(dev, "HwAddress")),
      HwOrSw(typeStr),
      Get(dev, "Mtu"),
      Truthy(Get(ac, "default")),
      InetList(ac, "ip4"),
      RouteList(ac, "ip4", "0.0.0.0"),
      InetList(ac, "ip6"),
      RouteList(ac, "ip6", "::"))
  }

  // ---------------------------------------------------------------------
  // Which active connection a device belongs to
  // ---------------------------------------------------------------------

  /** The devices of one active connection's details that have a truthy
      path, each mapped to that connection, later ones overriding. */
  function AddDevices(m: map<Value, Value>, ac: Value, devs: seq<Value>): (r: map<Value, Value>)
    decreases |devs|
  {
    if devs == [] then m
    else
      var d := devs[|devs| - 1];
      var m' := AddDevices(m, ac, devs[..|devs| - 1]);
      if Truthy(Get(d, "path")) then m'[Get(d, "path") := ac] else m'
  }

  /** The `deviceToActive` map after the given active connections. */
  function DeviceToActiveOf(acs: seq<Value>): map<Value, Value>
    decreases |acs|
  {
    if acs == [] then map[]
    else
      var ac := acs[|acs| - 1];
      var m := DeviceToActiveOf(acs[..|acs| - 1]);
      if Truthy(ac) && Get(ac, "devices").Arr? then AddDevices(m, ac, Get(ac, "devices").items) else m
  }

  /** Connection `ac` lists a device with path p. */
  predicate ListsDevice(ac: Value, p: Value)
  {
    Truthy(ac) && Get(ac, "devices").Arr? && Truthy(p) &&
    exists k :: 0 <= k < |Get(ac, "devices").items| && Get(Get(ac, "devices").items[k], "path") == p
  }

  /** The loop that fills `deviceToActive`. */
  method BuildDeviceToActive(acs: seq<Value>) returns (m: map<Value, Value>)
    ensures m == DeviceToActiveOf(acs)
  {
    m := map[];
    var i := 0;
    while i < |acs|
      invariant i <= |acs|
      invariant m == DeviceToActiveOf(acs[..i])
    {
      var ac := acs[i];
      assert acs[..i + 1][..i] == acs[..i];
      if Truthy(ac) && Get(ac, "devices").Arr? {
        var devs := Get(ac, "devices").items;
        ghost var start := m;
        var j := 0;
        while j < |devs|
          invariant j <= |devs|
          invariant m == AddDevices(start, ac, devs[..j])
        {
          assert devs[..j + 1][..j] == devs[..j];
          var p := Get(devs[j], "path");
          if Truthy(p) {
            m := m[p := ac];
          }
          j := j + 1;
        }
        assert devs[..j] == devs;
      }
      i := i + 1;
    }
    assert acs[..i] == acs;
  }

  lemma {:induction false} AddDevicesMaps(m: map<Value, Value>, ac: Value, devs: seq<Value>, p: Value)
    ensures var present := Truthy(p) && exists k :: 0 <= k < |devs| && Get(devs[k], "path") == p;
      (p in AddDevices(m, ac, devs) <==> present || p in m) &&
      (present ==> AddDevices(m, ac, devs)[p] == ac) &&
      (!present && p in m ==> AddDevices(m, ac, devs)[p] == m[p])
    decreases |devs|
  {
    if devs != [] {
      var init := devs[..|devs| - 1];
      AddDevicesMaps(m, ac, init, p);
      assert forall k :: 0 <= k < |init| ==> init[k] == devs[k];
    }
  }

  /** One connection more: the devices it lists now map to it, every other
      entry stays. */
  lemma DeviceToActiveStep(acs: seq<Value>, p: Value)
    requires acs != []
    ensures var n := |acs| - 1;
      && (p in DeviceToActiveOf(acs) <==> ListsDevice(acs[n], p) || p in DeviceToActiveOf(acs[..n]))
      && (ListsDevice(acs[n], p) ==> DeviceToActiveOf(acs)[p] == acs[n])
      && (!ListsDevice(acs[n], p) && p in DeviceToActiveOf(acs[..n]) ==>
            DeviceToActiveOf(acs)[p] == DeviceToActiveOf(acs[..n])[p])
  {
    var n := |acs| - 1;
    var ac := acs[n];
    if Truthy(ac) && Get(ac, "devices").Arr? {
      AddDevicesMaps(DeviceToActiveOf(acs[..n]), ac, Get(ac, "devices").items, p);
    }
  }

  /** The position of the last connection that lists device p; -1 when
      none does. */
  function LastListing(acs: seq<Value>, p: Value): (i: int)
    ensures -1 <= i < |acs|
    ensures i >= 0 ==> ListsDevice(acs[i], p)
    ensures forall j :: i < j < |acs| ==> !ListsDevice(acs[j], p)
    decreases |acs|
  {
    if acs == [] then -1
    else if ListsDevice(acs[|acs| - 1], p) then |acs| - 1
    else LastListing(acs[..|acs| - 1], p)
  }

  /** A device belongs to the LAST active connection that lists it: it is
      in the map iff some connection lists it, and then maps to the last
      connection that does. */
  lemma {:induction false} DeviceToActiveIsLastListing(acs: seq<Value>, p: Value)
    ensures p in DeviceToActiveOf(acs) <==> LastListing(acs, p) >= 0
    ensures p in DeviceToActiveOf(acs) ==> DeviceToActiveOf(acs)[p] == acs[LastListing(acs, p)]
    decreases |acs|
  {
    if acs != [] {
      var n := |acs| - 1;
      DeviceToActiveIsLastListing(acs[..n], p);
      DeviceToActiveStep(acs, p);
    }
  }

  // ---------------------------------------------------------------------
  // IP detail records
  // ---------------------------------------------------------------------

  /** The record `getDeviceInfoIPDetail` returns. It has no `devPath`. */
  datatype IpDetail = IpDetail(
    device: Option<string>,
    typeName: string,
    state: string,
    connection: Value,
    mac: Option<string>,
    ipV4: Option<string>,
    netV4: Option<string>,
    gatewayV4: Option<string>,
    ipV6: Option<string>,
    netV6: Option<string>,
    gatewayV6: Option<string>)

  function OptionText(o: Option<string>): Value
  {
    if o.Some? then Str(o.value) else Undefined
  }

  /** `detail[name]`: the record's fields by their JavaScript names, and
      `undefined` for any other name. */
  function Field(d: IpDetail, name: string): (r: Value)
    ensures (name !in {"device", "type", "state", "connection", "mac", "ipV4", "netV4",
                       "gatewayV4", "ipV6", "netV6", "gatewayV6"}) ==> r == Undefined
  {
    if name == "device" then OptionText(d.device)
    else if name == "type" then Str(d.typeName)
    else if name == "state" then Str(d.state)
    else if name == "connection" then d.connection
    else if name == "mac" then OptionText(d.mac)
    else if name == "ipV4" then OptionText(d.ipV4)
    else if name == "netV4" then OptionText(d.netV4)
    else if name == "gatewayV4" then OptionText(d.gatewayV4)
    else if name == "ipV6" then OptionText(d.ipV6)
    else if name == "netV6" then OptionText(d.netV6)
    else if name == "gatewayV6" then OptionText(d.gatewayV6)
    else Undefined
  }

  /** The characters JavaScript's `\s` matches. */
  predicate IsJsSpace(c: char)
  {
    var n := c as int;
    (0x09 <= n <= 0x0D) || n == 0x20 || n == 0xA0 || n == 0x1680 || (0x2000 <= n <= 0x200A) ||
    n == 0x2028 || n == 0x2029 || n == 0x202F || n == 0x205F || n == 0x3000 || n == 0xFEFF
  }

  function DropSpaces(s: string): (r: string)
    ensures r == [] || !IsJsSpace(r[0])
    ensures |r| <= |s| && r == s[|s| - |r|..]
  {
    if s != [] && IsJsSpace(s[0]) then DropSpaces(s[1..]) else s
  }

  /** `r.replace(/^default via\s+/, '')`. */
  function ReplaceDefaultVia(r: string): (t: string)
    ensures |t| <= |r| && t == r[|r| - |t|..]
    ensures !StartsWith(r, "default via") ==> t == r
  {
    if |r| > 11 && r[..11] == "default via" && IsJsSpace(r[11]) then DropSpaces(r[11..]) else r
  }

  /** The position of the first route that is truthy and starts with
      'default via '; |routes| when there is none. */
  function FirstDefaultIndex(routes: seq<string>): (k: nat)
    ensures k <= |routes|
    ensures forall j :: 0 <= j < k ==> !StartsWith(routes[j], "default via ")
    ensures k < |routes| ==> StartsWith(routes[k], "default via ")
    decreases |routes|
  {
    if routes == [] || (routes[0] != "" && StartsWith(routes[0], "default via ")) then 0
    else 1 + FirstDefaultIndex(routes[1..])
  }

  /** `routes.find((r) => r && r.startsWith('default via '))`. */
  function FirstDefaultRoute(routes: seq<string>): (r: Option<string>)
    ensures r.None? <==> forall k :: 0 <= k < |routes| ==> !StartsWith(routes[k], "default via ")
    ensures r.Some? ==>
      exists k :: (0 <= k < |routes| && routes[k] == r.value && StartsWith(r.value, "default via ") &&
        forall j :: 0 <= j < k ==> !StartsWith(routes[j], "default via "))
  {
    var k := FirstDefaultIndex(routes);
    if k < |routes| then Some(routes[k]) else None
  }

  /** `route.replace(/^default via\s+/, '').split(' ')[0]`. */
  function GatewayOf(route: string): (g: string)
    ensures ' ' !in g
    ensures StartsWith(ReplaceDefaultVia(route), g)
  {
    Split(ReplaceDefaultVia(route), ' ')[0]
  }

  /** `ip ? ip.split('/')[0] : undefined` on the first address only. */
  function FirstAddress(inet: seq<string>): (r: Option<string>)
    ensures r.None? <==> inet == [] || inet[0] == ""
    ensures r.Some? ==> '/' !in r.value && StartsWith(inet[0], r.value)
  {
    if |inet| > 0 && inet[0] != "" then Some(Split(inet[0], '/')[0]) else None
  }

  /** The IP detail of one summary. */
  function DetailOf(d: DeviceSummary): (r: IpDetail)
    ensures r.device == d.iface && r.typeName == d.typeName && r.state == d.status
    ensures r.connection == d.connectedTo && r.mac == d.mac
    ensures r.netV4 == (if |d.inet4| > 0 then Some(d.inet4[0]) else None)
    ensures r.netV6 == (if |d.inet6| > 0 then Some(d.inet6[0]) else None)
    ensures r.ipV4 == FirstAddress(d.inet4) && r.ipV6 == FirstAddress(d.inet6)
    ensures r.gatewayV4.Some? <==> exists k :: 0 <= k < |d.route4| && StartsWith(d.route4[k], "default via ")
    ensures r.gatewayV6.Some? <==> exists k :: 0 <= k < |d.route6| && StartsWith(d.route6[k], "default via ")
    ensures r.gatewayV4.Some? ==> r.gatewayV4.value == GatewayOf(FirstDefaultRoute(d.route4).value)
    ensures r.gatewayV6.Some? ==> r.gatewayV6.value == GatewayOf(FirstDefaultRoute(d.route6).value)
  {
    var r4 := FirstDefaultRoute(d.route4);
    var r6 := FirstDefaultRoute(d.route6);
    IpDetail(
      d.iface, d.typeName, d.status, d.connectedTo, d.mac,
      FirstAddress(d.inet4),
      if |d.inet4| > 0 then Some(d.inet4[0]) else None,
      if r4.Some? then Some(GatewayOf(r4.value)) else None,
      FirstAddress(d.inet6),
      if |d.inet6| > 0 then Some(d.inet6[0]) else None,
      if r6.Some? then Some(GatewayOf(r6.value)) else None)
  }

  /** `getAllDeviceInfoIPDetail()`: one record per summary, in order. */
  function AllDeviceInfoIPDetail(devices: seq<DeviceSummary>): (r: seq<IpDetail>)
    ensures |r| == |devices|
    ensures forall k :: 0 <= k < |r| ==> r[k] == DetailOf(devices[k])
  {
    seq(|devices|, k requires 0 <= k < |devices| => DetailOf(devices[k]))
  }

  /** The position of the first summary whose interface is exactly
      `name`; |devices| when there is none. */
  function FirstWithIface(name: string, devices: seq<DeviceSummary>): (k: nat)
    ensures k <= |devices|
    ensures forall j :: 0 <= j < k ==> devices[j].iface != Some(name)
    ensures k < |devices| ==> devices[k].iface == Some(name)
    decreases |devices|
  {
    if devices == [] || devices[0].iface == Some(name) then 0
    else 1 + FirstWithIface(name, devices[1..])
  }

  /** `getDeviceInfoIPDetail(name)`: the record of the first summary whose
      interface is exactly `name`, else `undefined`. */
  function DeviceInfoIPDetail(name: string, devices: seq<DeviceSummary>): (r: Option<IpDetail>)
    ensures r.None? <==> forall k :: 0 <= k < |devices| ==> devices[k].iface != Some(name)
    ensures r.Some? ==>
      exists k :: (0 <= k < |devices| && devices[k].iface == Some(name) &&
        r.value == DetailOf(devices[k]) && forall j :: 0 <= j < k ==> devices[j].iface != Some(name))
  {
    var k := FirstWithIface(name, devices);
    if k < |devices| then Some(DetailOf(devices[k])) else None
  }

  // ---------------------------------------------------------------------
  // Round trips through the text
  // ---------------------------------------------------------------------

  /** `ipV4` recovers the address of the first IPv4 entry, provided the
      address itself holds no '/'. */
  lemma AddressBeforeSlash(a: Value)
    requires AddressText(a).Some?
    requires '/' !in FirstField(a, ["address", "Address"]).s
    ensures FirstAddress([AddressText(a).value]) == Some(FirstField(a, ["address", "Address"]).s)
  {
    var addr := FirstField(a, ["address", "Address"]).s;
    var prefix := Show(FirstField(a, ["prefix", "Prefix"]));
    assert AddressText(a).value == addr + ['/'] + prefix;
    SplitFirstField(addr, '/', prefix);
  }

  lemma DropSpacesOfUnspaced(s: string)
    requires s == [] || !IsJsSpace(s[0])
    ensures DropSpaces(s) == s
  {
  }

  /** Stripping 'default via' and the blanks after it, then cutting at the
      first space, leaves g. */
  lemma GatewayOfDefaultText(g: string, suffix: string)
    requires g != "" && ' ' !in g && !IsJsSpace(g[0])
    requires suffix == "" || suffix[0] == ' '
    ensures GatewayOf("default via " + g + suffix) == g
  {
    var rest := g + suffix;
    assert "default via " + g + suffix == "default via " + rest;
    StripDefaultVia(rest);
    FirstWordOf(g, suffix);
  }

  /** A word followed by nothing or by a space is the first field of the
      text at spaces. */
  lemma FirstWordOf(g: string, suffix: string)
    requires ' ' !in g
    requires suffix == "" || suffix[0] == ' '
    ensures Split(g + suffix, ' ')[0] == g
  {
    if suffix == "" {
      assert g + suffix == g;
      SplitNoSeparator(g, ' ');
    } else {
      assert g + suffix == g + [' '] + suffix[1..];
      SplitFirstField(g, ' ', suffix[1..]);
    }
  }

  lemma StripDefaultVia(rest: string)
    requires rest != "" && !IsJsSpace(rest[0])
    ensures ReplaceDefaultVia("default via " + rest) == rest
  {
    var t := "default via " + rest;
    assert t[..11] == "default via" && t[11] == ' ';
    assert t[11..] == [' '] + rest;
    assert IsJsSpace(' ');
    assert ([' '] + rest)[1..] == rest;
    assert DropSpaces(rest) == rest;
  }

  /** The gateway a default route was printed with comes back out of
      `gatewayV4`, provided its text is non-empty, holds no space and does
      not start with whitespace. */
  lemma GatewayRoundTrip(r: Value, defaultDest: string)
    requires Truthy(FirstField(r, ["gateway", "Gateway", "nextHop", "NextHop"]))
    requires var dest := FirstField(r, ["dest", "Dest"]);
      var prefix := FirstField(r, ["prefix", "Prefix"]);
      dest == Str(defaultDest) || prefix == Num(0)
    requires var g := Show(FirstField(r, ["gateway", "Gateway", "nextHop", "NextHop"]));
      g != "" && ' ' !in g && !IsJsSpace(g[0])
    ensures RouteText(r, defaultDest).Some?
    ensures GatewayOf(RouteText(r, defaultDest).value) ==
      Show(FirstField(r, ["gateway", "Gateway", "nextHop", "NextHop"]))
  {
    var g := Show(FirstField(r, ["gateway", "Gateway", "nextHop", "NextHop"]));
    var suffix := MetricSuffix(FirstField(r, ["metric", "Metric"]));
    assert RouteText(r, defaultDest) == Some("default via " + g + suffix);
    GatewayOfDefaultText(g, suffix);
  }

  /** A route that is not a default route but has a string destination
      and a defined prefix is printed as "dest/prefix"; the destination
      comes back as the text before the first '/'. */
  lemma PlainRouteReadsBack(r: Value, defaultDest: string)
    requires var dest := FirstField(r, ["dest", "Dest"]);
      var prefix := FirstField(r, ["prefix", "Prefix"]);
      dest.Str? && !prefix.Undefined? && '/' !in dest.s &&
      !((dest == Str(defaultDest) || prefix == Num(0)) &&
        Truthy(FirstField(r, ["gateway", "Gateway", "nextHop", "NextHop"])))
    ensures RouteText(r, defaultDest).Some?
    ensures Split(RouteText(r, defaultDest).value, '/')[0] == FirstField(r, ["dest", "Dest"]).s
  {
    var dest := FirstField(r, ["dest", "Dest"]).s;
    var t := RouteText(r, defaultDest).value;
    assert t == dest + ['/'] + t[|dest| + 1..];
    SplitFirstField(dest, '/', t[|dest| + 1..]);
  }

  /** A default route is printed with the default prefix, so it always
      counts as a default route for the detail records. */
  lemma DefaultRouteTextStartsWithDefaultVia(r: Value, defaultDest: string)
    requires var dest := FirstField(r, ["dest", "Dest"]);
      var prefix := FirstField(r, ["prefix", "Prefix"]);
      (dest == Str(defaultDest) || prefix == Num(0)) &&
      Truthy(FirstField(r, ["gateway", "Gateway", "nextHop", "NextHop"]))
    ensures RouteText(r, defaultDest).Some?
    ensures StartsWith(RouteText(r, defaultDest).value, "default via ")
  {
  }
}
