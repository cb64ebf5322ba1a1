/** `listVisibleAccessPoints` of lib/NetworkManager.js: every access point
    seen by every Wi-Fi device, with its SSID decoded and its security
    classified from the RSN/WPA flags and the privacy bit.

    The bus is a parameter: `props(path, iface)` is what `getAllProps`
    returns for an object path and interface (a parsed bag, `{}` on
    failure), and `rootReply` is the parsed root property bag, or None
    when that first call throws (the whole scan then gives `[]`). */
module AccessPoints {
  import opened Common
  import opened JsValue
  import opened Ssid

  const DeviceIface: string := "org.freedesktop.NetworkManager.Device"
  const WirelessIface: string := "org.freedesktop.NetworkManager.Device.Wireless"
  const AccessPointIface: string := "org.freedesktop.NetworkManager.AccessPoint"

  /** NM_DEVICE_TYPE_WIFI. */
  const WifiType: int := 2

  datatype Security = Open | Wep | Wpa | Wpa2or3

  function SecurityName(s: Security): string
  {
    match s
    case Open => "open"
    case Wep => "wep"
    case Wpa => "wpa"
    case Wpa2or3 => "wpa2/3"
  }

  /** The classification: RSN flags first, then WPA flags, then the privacy
      bit. A flag that is not a number counts as 0. */
  function Classify(privacy: Value, wpaFlags: Value, rsnFlags: Value): (s: Security)
    ensures s == Wpa2or3 <==> NumberOr(rsnFlags, 0) > 0
    ensures s == Wpa <==> NumberOr(rsnFlags, 0) <= 0 && NumberOr(wpaFlags, 0) > 0
    ensures s == Wep <==> NumberOr(rsnFlags, 0) <= 0 && NumberOr(wpaFlags, 0) <= 0 && Truthy(privacy)
    ensures s == Open <==> NumberOr(rsnFlags, 0) <= 0 && NumberOr(wpaFlags, 0) <= 0 && !Truthy(privacy)
  {
    var wpa := NumberOr(wpaFlags, 0);
    var rsn := NumberOr(rsnFlags, 0);
    if rsn > 0 then Wpa2or3 else if wpa > 0 then Wpa else if Truthy(privacy) then Wep else Open
  }

  /** The `ssidBytes` field: the SSID buffer's bytes, the masked numbers of a
      plain array, or `undefined` for anything else. */
  function SsidBytes(ssid: Value): (r: Option<seq<Byte>>)
    ensures r.Some? <==> ssid.Octets? || ssid.Arr?
  {
    match ssid
    case Octets(bytes) => Some(bytes)
    case Arr(items) => Some(MaskBytes(items))
    case _ => None
  }

  function BytesValue(b: seq<Byte>): (v: Value)
    ensures v.Arr? && |v.items| == |b|
  {
    Arr(seq(|b|, k requires 0 <= k < |b| => Num(b[k])))
  }

  /** `ap.Ssid?._v || ap.Ssid || ssidBytes`: what is handed to the SSID
      decoder. */
  function SsidSource(ssid: Value): Value
  {
    var wrapped := Get(ssid, "_v");
    if Truthy(wrapped) then wrapped
    else if Truthy(ssid) then ssid
    else match SsidBytes(ssid)
      case Some(b) => BytesValue(b)
      case None => Undefined
  }

  /** The last alternative never decides: whenever the SSID has bytes it is
      itself truthy, so a falsy SSID (an empty string included) gives
      `undefined` and hence no SSID text. */
  lemma SsidSourceCases(ssid: Value)
    ensures Truthy(Get(ssid, "_v")) ==> SsidSource(ssid) == Get(ssid, "_v")
    ensures !Truthy(Get(ssid, "_v")) && Truthy(ssid) ==> SsidSource(ssid) == ssid
    ensures !Truthy(ssid) ==> SsidSource(ssid) == Undefined
  {
  }

  datatype ApRecord = ApRecord(
    device: Option<string>,
    devicePath: Value,
    apPath: Value,
    ssid: Option<string>,
    ssidBytes: Option<seq<Byte>>,
    bssid: Option<string>,
    frequency: Option<int>,
    maxBitrate: Option<int>,
    strength: Option<int>,
    security: string,
    wpaFlags: int,
    rsnFlags: int)

  function NumberField(v: Value): Option<int>
  {
    if v.Num? then Some(v.n) else None
  }

  /** The record pushed for one access point of a Wi-Fi device. */
  function ApRecordOf(iface: Option<string>, devPath: Value, apPath: Value, ap: Value,
                      utf8: seq<Byte> -> Option<string>, latin1: seq<Byte> -> Option<string>): (r: ApRecord)
    ensures r.security == SecurityName(Classify(Get(ap, "Privacy"), Get(ap, "WpaFlags"), Get(ap, "RsnFlags")))
    ensures r.ssid == DecodeSsidBytes(SsidSource(Get(ap, "Ssid")), utf8, latin1)
  {
    var ssid := Get(ap, "Ssid");
    ApRecord(
      iface, devPath, apPath,
      DecodeSsidBytes(SsidSource(ssid), utf8, latin1),
      SsidBytes(ssid),
      StringField(Get(ap, "HwAddress")),
      NumberField(Get(ap, "Frequency")),
      NumberField(Get(ap, "MaxBitrate")),
      NumberField(Get(ap, "Strength")),
      SecurityName(Classify(Get(ap, "Privacy"), Get(ap, "WpaFlags"), Get(ap, "RsnFlags"))),
      NumberOr(Get(ap, "WpaFlags"), 0),
      NumberOr(Get(ap, "RsnFlags"), 0))
  }

  function ArrayItems(v: Value): seq<Value>
  {
    if v.Arr? then v.items else []
  }

  /** The records of the access points of one Wi-Fi device. */
  function DeviceAps(iface: Option<string>, devPath: Value, apPaths: seq<Value>, props: (Value, string) -> Value,
                     utf8: seq<Byte> -> Option<string>, latin1: seq<Byte> -> Option<string>): (r: seq<ApRecord>)
    ensures |r| == |apPaths|
    ensures forall k :: 0 <= k < |r| ==> r[k].devicePath == devPath && r[k].apPath == apPaths[k]
    decreases |apPaths|
  {
    if apPaths == [] then []
    else
      var n := |apPaths| - 1;
      DeviceAps(iface, devPath, apPaths[..n], props, utf8, latin1) +
        [ApRecordOf(iface, devPath, apPaths[n], props(apPaths[n], AccessPointIface), utf8, latin1)]
  }

  predicate IsWifi(devPath: Value, props: (Value, string) -> Value)
  {
    Get(props(devPath, DeviceIface), "DeviceType") == Num(WifiType)
  }

  /** The records of all access points of the given devices, in order. */
  function VisibleAps(devPaths: seq<Value>, props: (Value, string) -> Value,
                      utf8: seq<Byte> -> Option<string>, latin1: seq<Byte> -> Option<string>): seq<ApRecord>
    decreases |devPaths|
  {
    if devPaths == [] then []
    else
      var n := |devPaths| - 1;
      var devPath := devPaths[n];
      var dev := props(devPath, DeviceIface);
      var earlier := VisibleAps(devPaths[..n], props, utf8, latin1);
      if !IsWifi(devPath, props) then earlier
      else
        var iface := StringField(Get(dev, "Interface"));
        var apPaths := ArrayItems(Get(props(devPath, WirelessIface), "AccessPoints"));
        earlier + DeviceAps(iface, devPath, apPaths, props, utf8, latin1)
  }

  /** The inner loop of `listVisibleAccessPoints()`: one record per access
      point of a Wi-Fi device, in order. */
  method DeviceAccessPoints(iface: Option<string>, devPath: Value, apPaths: seq<Value>, props: (Value, string) -> Value,
                            utf8: seq<Byte> -> Option<string>, latin1: seq<Byte> -> Option<string>)
    returns (recs: seq<ApRecord>)
    ensures recs == DeviceAps(iface, devPath, apPaths, props, utf8, latin1)
  {
    recs := [];
    var j := 0;
    while j < |apPaths|
      invariant j <= |apPaths|
      invariant recs == DeviceAps(iface, devPath, apPaths[..j], props, utf8, latin1)
    {
      DeviceApsStep(iface, devPath, apPaths, j, props, utf8, latin1);
      var apPath := apPaths[j];
      var ap := props(apPath, AccessPointIface);
      recs := recs + [ApRecordOf(iface, devPath, apPath, ap, utf8, latin1)];
      j := j + 1;
    }
    assert apPaths[..j] == apPaths;
  }

  lemma DeviceApsStep(iface: Option<string>, devPath: Value, apPaths: seq<Value>, j: nat, props: (Value, string) -> Value,
                      utf8: seq<Byte> -> Option<string>, latin1: seq<Byte> -> Option<string>)
    requires j < |apPaths|
    ensures DeviceAps(iface, devPath, apPaths[..j + 1], props, utf8, latin1) ==
      DeviceAps(iface, devPath, apPaths[..j], props, utf8, latin1) +
      [ApRecordOf(iface, devPath, apPaths[j], props(apPaths[j], AccessPointIface), utf8, latin1)]
  {
    assert apPaths[..j + 1][..j] == apPaths[..j];
  }

  /** `listVisibleAccessPoints()`: the loop over devices, skipping all but
      Wi-Fi ones, and over each one's access points, pushing a record
      for each. */
  method ListVisibleAccessPoints(rootReply: Option<Value>, props: (Value, string) -> Value,
                                 utf8: seq<Byte> -> Option<string>, latin1: seq<Byte> -> Option<string>)
    returns (all: seq<ApRecord>)
    ensures rootReply.None? ==> all == []
    ensures rootReply.Some? ==> all == VisibleAps(ArrayItems(Get(rootReply.value, "Devices")), props, utf8, latin1)
  {
    if rootReply.None? {
      return [];
    }
    var devicePaths := ArrayItems(Get(rootReply.value, "Devices"));
    all := [];
    var i := 0;
    while i < |devicePaths|
      invariant i <= |devicePaths|
      invariant all == VisibleAps(devicePaths[..i], props, utf8, latin1)
    {
      var devPath := devicePaths[i];
      assert devicePaths[..i + 1][..i] == devicePaths[..i];
      var dev := props(devPath, DeviceIface);
      if Get(dev, "DeviceType") == Num(WifiType) {
        var iface := StringField(Get(dev, "Interface"));
        var apPaths := ArrayItems(Get(props(devPath, WirelessIface), "AccessPoints"));
        var recs := DeviceAccessPoints(iface, devPath, apPaths, props, utf8, latin1);
        all := all + recs;
      }
      i := i + 1;
    }
    assert devicePaths[..i] == devicePaths;
  }

  /** Every listed access point belongs to a device of the list whose
      DeviceType is 2 (Wi-Fi); devices of every other type are skipped. */
  lemma {:induction false} OnlyWifiDevicesListed(devPaths: seq<Value>, props: (Value, string) -> Value,
                                                 utf8: seq<Byte> -> Option<string>, latin1: seq<Byte> -> Option<string>)
    ensures forall r :: r in VisibleAps(devPaths, props, utf8, latin1) ==>
      r.devicePath in devPaths && IsWifi(r.devicePath, props)
    decreases |devPaths|
  {
    if devPaths != [] {
      var n := |devPaths| - 1;
      OnlyWifiDevicesListed(devPaths[..n], props, utf8, latin1);
      assert forall p :: p in devPaths[..n] ==> p in devPaths;
    }
  }

  /** A list without Wi-Fi devices gives no access points. */
  lemma {:induction false} NonWifiDevicesGiveNothing(devPaths: seq<Value>, props: (Value, string) -> Value,
                                   utf8: seq<Byte> -> Option<string>, latin1: seq<Byte> -> Option<string>)
    requires forall k :: 0 <= k < |devPaths| ==> !IsWifi(devPaths[k], props)
    ensures VisibleAps(devPaths, props, utf8, latin1) == []
    decreases |devPaths|
  {
    if devPaths != [] {
      var n := |devPaths| - 1;
      NonWifiDevicesGiveNothing(devPaths[..n], props, utf8, latin1);
    }
  }
}
