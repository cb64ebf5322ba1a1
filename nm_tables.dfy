/** The lookup tables of lib/NetworkManager.js: NetworkManager's device
    types (`devTypeName`), device states (`stateName`) and connectivity
    levels, and the hardware/software classification `getOverview` derives
    from a device's type name. */
module NmTables {
  import opened Common
  import opened JsValue

  /** NMDeviceType codes and their names. */
  const DevTypeNames: map<int, string> := map[
    0 := "unknown", 1 := "ethernet", 2 := "wifi", 5 := "bt", 6 := "olpc-mesh",
    7 := "wimax", 8 := "modem", 9 := "infiniband", 10 := "bond", 11 := "vlan",
    12 := "adsl", 13 := "bridge", 14 := "team", 15 := "tun", 16 := "ip-tunnel",
    17 := "macvlan", 18 := "vxlan", 19 := "veth", 20 := "macsec", 21 := "dummy",
    22 := "ppp", 23 := "wifi-p2p", 24 := "vrf", 25 := "loopback"]

  /** NMDeviceState codes and their names. */
  const StateNames: map<int, string> := map[
    10 := "unmanaged", 20 := "unavailable", 30 := "disconnected", 40 := "prepare",
    50 := "config", 60 := "need-auth", 70 := "ip-config", 80 := "ip-check",
    90 := "secondaries", 100 := "connected", 110 := "deactivating", 120 := "failed"]

  /** NMConnectivityState codes and their names. */
  const ConnectivityNames: map<int, string> := map[
    0 := "unknown", 1 := "none", 2 := "portal", 3 := "limited", 4 := "full"]

  /** `devTypeName(num)`: the name of a numeric device type in the table,
      else `undefined`. */
  function DevTypeName(v: Value): (r: Option<string>)
    ensures r.Some? <==> v.Num? && v.n in DevTypeNames
  {
    if v.Num? && v.n in DevTypeNames then Some(DevTypeNames[v.n]) else None
  }

  /** `stateName(num)`. */
  function StateName(v: Value): (r: Option<string>)
    ensures r.Some? <==> v.Num? && v.n in StateNames
  {
    if v.Num? && v.n in StateNames then Some(StateNames[v.n]) else None
  }

  /** `await devTypeName(dev.DeviceType) || 'unknown'` (every name in the
      table is non-empty, so only a missing name falls back). */
  function TypeOrUnknown(v: Value): string
  {
    match DevTypeName(v)
    case Some(s) => if s != "" then s else "unknown"
    case None => "unknown"
  }

  /** `await stateName(dev.State) || 'unknown'`. */
  function StateOrUnknown(v: Value): string
  {
    match StateName(v)
    case Some(s) => if s != "" then s else "unknown"
    case None => "unknown"
  }

  /** `map[n] || 'unknown'` in `getNetworkConnectivityState`, where n is the
      number read from the bus or `parseInt` of it (None for NaN). */
  function ConnectivityName(n: Option<int>): (r: string)
    ensures r != ""
  {
    if n.Some? && n.value in ConnectivityNames then ConnectivityNames[n.value] else "unknown"
  }

  const SoftwareTypes: set<string> :=
    {"loopback", "wifi-p2p", "tun", "ip-tunnel", "bridge", "bond", "team", "vlan", "dummy"}

  /** The `mode` of a device summary: 'sw' for virtual device types, 'hw'
      for every other type name, unknown ones included. */
  function HwOrSw(typeName: string): (r: string)
    ensures r == "sw" || r == "hw"
  {
    if typeName in SoftwareTypes then "sw" else "hw"
  }

  // ---------------------------------------------------------------------
  // Properties
  // ---------------------------------------------------------------------

  /** The type name is 'wifi' exactly for DeviceType 2 and 'ethernet'
      exactly for DeviceType 1, which is what lets the widgets test the name
      where the access-point scan tests the code. */
  lemma TypeNameOfWifiAndEthernet(v: Value)
    ensures TypeOrUnknown(v) == "wifi" <==> v == Num(2)
    ensures TypeOrUnknown(v) == "ethernet" <==> v == Num(1)
  {
    if v.Num? && v.n in DevTypeNames {
      DevTypeNamesAreDistinct(v.n);
    }
  }

  /** No two codes share a name, and no name is 'unknown' except code 0's. */
  lemma DevTypeNamesAreDistinct(n: int)
    requires n in DevTypeNames
    ensures DevTypeNames[n] == "wifi" ==> n == 2
    ensures DevTypeNames[n] == "ethernet" ==> n == 1
    ensures DevTypeNames[n] == "unknown" ==> n == 0
    ensures DevTypeNames[n] in SoftwareTypes <==> n in {10, 11, 13, 14, 15, 16, 21, 23, 25}
  {
    if n == 0 {} else if n == 1 {} else if n == 2 {} else if n == 5 {} else if n == 6 {}
    else if n == 7 {} else if n == 8 {} else if n == 9 {} else if n == 10 {} else if n == 11 {}
    else if n == 12 {} else if n == 13 {} else if n == 14 {} else if n == 15 {} else if n == 16 {}
    else if n == 17 {} else if n == 18 {} else if n == 19 {} else if n == 20 {} else if n == 21 {}
    else if n == 22 {} else if n == 23 {} else if n == 24 {} else {}
  }

  /** A device is classed as software exactly for the bond, vlan, bridge,
      team, tun, ip-tunnel, dummy, wifi-p2p and loopback codes; unknown and
      non-numeric types count as hardware. */
  lemma SoftwareDeviceCodes(v: Value)
    ensures HwOrSw(TypeOrUnknown(v)) == "sw" <==> v.Num? && v.n in {10, 11, 13, 14, 15, 16, 21, 23, 25}
  {
    if v.Num? && v.n in DevTypeNames {
      DevTypeNamesAreDistinct(v.n);
    } else {
      assert TypeOrUnknown(v) == "unknown";
    }
  }

  /** The three state names the network widget colours are those of states
      100, 30 and 20. */
  lemma StateNamesTheWidgetUses(v: Value)
    ensures StateOrUnknown(v) == "connected" <==> v == Num(100)
    ensures StateOrUnknown(v) == "disconnected" <==> v == Num(30)
    ensures StateOrUnknown(v) == "unavailable" <==> v == Num(20)
  {
    if v.Num? && v.n in StateNames {
      var n := v.n;
      if n == 10 {} else if n == 20 {} else if n == 30 {} else if n == 40 {} else if n == 50 {}
      else if n == 60 {} else if n == 70 {} else if n == 80 {} else if n == 90 {} else if n == 100 {}
      else if n == 110 {} else {}
    }
  }

  /** Connectivity codes outside 0..4, and NaN, read as 'unknown'; 0..4 read
      as distinct names. */
  lemma ConnectivityNamesAreDistinct(a: int, b: int)
    requires 0 <= a <= 4 && 0 <= b <= 4 && a != b
    ensures ConnectivityName(Some(a)) != ConnectivityName(Some(b))
    ensures ConnectivityName(Some(a)) == "unknown" ==> a == 0
  {
  }

  lemma ConnectivityOutOfRange(n: Option<int>)
    requires n.None? || n.value < 0 || n.value > 4
    ensures ConnectivityName(n) == "unknown"
  {
  }
}
