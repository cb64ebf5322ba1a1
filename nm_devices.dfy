/** Device and profile selection in lib/NetworkManager.js: `_findDevicePath`,
    the profile `deviceConnect` activates, the grouping of active
    connections by profile in `getAllConnections`, the path filter of
    `listActiveConnectionPaths`, and the modem `getModem` picks.

    Bus replies are inputs, as in the other modules: `props(path, iface)` is
    what `getAllProps` returns, and a reply that throws is None. */
module Devices {
  import opened Common
  import opened JsValue

  const DeviceIface: string := "org.freedesktop.NetworkManager.Device"

  // ---------------------------------------------------------------------
  // _findDevicePath
  // ---------------------------------------------------------------------

  /** The device at `p` qualifies for a search without an interface name:
      its DeviceType is a number, equal to `typeNum` when that is a number. */
  predicate TypeMatches(p: Value, typeNum: Value, props: (Value, string) -> Value)
  {
    var dType := Get(props(p, DeviceIface), "DeviceType");
    dType.Num? && (typeNum.Num? ==> dType == typeNum)
  }

  /** The device at `p` has exactly the interface name `ifname`. */
  predicate NameMatches(p: Value, ifname: string, props: (Value, string) -> Value)
  {
    Get(props(p, DeviceIface), "Interface") == Str(ifname)
  }

  /** The loop's outcome from position i on, with `best` found so far. */
  function FindFrom(paths: seq<Value>, i: nat, best: Value, ifname: string, typeNum: Value,
                    props: (Value, string) -> Value): (r: Value)
    ensures r == best || exists k :: i <= k < |paths| && paths[k] == r
    ensures ifname != "" && r != best ==> NameMatches(r, ifname, props)
    ensures ifname == "" && r != best ==> TypeMatches(r, typeNum, props)
    decreases |paths| - i
  {
    if i >= |paths| then best
    else
      var p := paths[i];
      if ifname != "" && NameMatches(p, ifname, props) then p
      else
        var best' := if ifname == "" && TypeMatches(p, typeNum, props) && !Truthy(best) then p else best;
        FindFrom(paths, i + 1, best', ifname, typeNum, props)
  }

  /** `_findDevicePath({ ifname, typeNum })`; `rootReply` is None when the
      root property call throws, which gives `undefined`. */
  method FindDevicePath(ifname: string, typeNum: Value, rootReply: Option<Value>, props: (Value, string) -> Value)
    returns (r: Value)
    ensures rootReply.None? ==> r == Undefined
    ensures rootReply.Some? ==> r == FindFrom(DevicePaths(rootReply.value), 0, Undefined, ifname, typeNum, props)
  {
    if rootReply.None? {
      return Undefined;
    }
    var devicePaths := DevicePaths(rootReply.value);
    var best := Undefined;
    var i := 0;
    while i < |devicePaths|
      invariant i <= |devicePaths|
      invariant FindFrom(devicePaths, i, best, ifname, typeNum, props) ==
                FindFrom(devicePaths, 0, Undefined, ifname, typeNum, props)
    {
      var p := devicePaths[i];
      var dev := props(p, DeviceIface);
      var iface := StringField(Get(dev, "Interface"));
      var dType := Get(dev, "DeviceType");
      if ifname != "" && iface == Some(ifname) {
        return p;
      }
      if ifname == "" && dType.Num? && (if typeNum.Num? then dType == typeNum else true) && !Truthy(best) {
        best := p;
      }
      i := i + 1;
    }
    return best;
  }

  function DevicePaths(root: Value): seq<Value>
  {
    var d := Get(root, "Devices");
    if d.Arr? then d.items else []
  }

  /** With an interface name, the search gives the first device whose
      interface is exactly that name, and `undefined` when there is none. */
  lemma {:induction false} FindByName(paths: seq<Value>, i: nat, ifname: string, typeNum: Value, props: (Value, string) -> Value)
    requires ifname != "" && i <= |paths|
    ensures var r := FindFrom(paths, i, Undefined, ifname, typeNum, props);
      (r == Undefined && forall k :: i <= k < |paths| ==> !NameMatches(paths[k], ifname, props)) ||
      (exists k :: i <= k < |paths| && r == paths[k] && NameMatches(paths[k], ifname, props) &&
         forall j :: i <= j < k ==> !NameMatches(paths[j], ifname, props))
    decreases |paths| - i
  {
    if i < |paths| && !NameMatches(paths[i], ifname, props) {
      FindByName(paths, i + 1, ifname, typeNum, props);
    }
  }

  /** Without an interface name, once some qualifying device is found with
      a truthy path, the search gives the first such device. */
  lemma {:induction false} FindByType(paths: seq<Value>, i: nat, typeNum: Value, props: (Value, string) -> Value, k: nat)
    requires i <= k < |paths| && TypeMatches(paths[k], typeNum, props) && Truthy(paths[k])
    requires forall j :: i <= j < k ==> !(TypeMatches(paths[j], typeNum, props) && Truthy(paths[j]))
    ensures FindFrom(paths, i, Undefined, "", typeNum, props) == paths[k]
    decreases k - i
  {
    if i < k {
      var p := paths[i];
      var best' := if TypeMatches(p, typeNum, props) then p else Undefined;
      assert !Truthy(best');
      FindByTypeFalsyBest(paths, i + 1, best', typeNum, props, k);
    } else {
      KeepBest(paths, i + 1, paths[k], typeNum, props);
    }
  }

  lemma {:induction false} FindByTypeFalsyBest(paths: seq<Value>, i: nat, best: Value, typeNum: Value, props: (Value, string) -> Value, k: nat)
    requires i <= k < |paths| && TypeMatches(paths[k], typeNum, props) && Truthy(paths[k]) && !Truthy(best)
    requires forall j :: i <= j < k ==> !(TypeMatches(paths[j], typeNum, props) && Truthy(paths[j]))
    ensures FindFrom(paths, i, best, "", typeNum, props) == paths[k]
    decreases k - i
  {
    var p := paths[i];
    var best' := if TypeMatches(p, typeNum, props) && !Truthy(best) then p else best;
    if i < k {
      FindByTypeFalsyBest(paths, i + 1, best', typeNum, props, k);
    } else {
      KeepBest(paths, i + 1, paths[k], typeNum, props);
    }
  }

  /** A truthy `best` is never replaced. */
  lemma {:induction false} KeepBest(paths: seq<Value>, i: nat, best: Value, typeNum: Value, props: (Value, string) -> Value)
    requires Truthy(best)
    ensures FindFrom(paths, i, best, "", typeNum, props) == best
    decreases |paths| - i
  {
    if i < |paths| {
      KeepBest(paths, i + 1, best, typeNum, props);
    }
  }

  // ---------------------------------------------------------------------
  // deviceConnect
  // ---------------------------------------------------------------------

  /** `c?.settings?.connection`. */
  function ConnectionSettings(c: Value): Value
  {
    Get(Get(c, "settings"), "connection")
  }

  /** A profile `deviceConnect` may activate on `ifname`: not active, and
      bound to no interface or to exactly this one. */
  predicate IsCandidate(c: Value, ifname: string): (b: bool)
    ensures b ==> !Truthy(Get(c, "active"))
    ensures var bound := Get(ConnectionSettings(c), "interface-name");
      b ==> !Truthy(bound) || bound == Str(ifname)
    ensures !Truthy(Get(c, "active")) && Get(ConnectionSettings(c), "interface-name") == Str(ifname) ==> b
  {
    var bound := Get(ConnectionSettings(c), "interface-name");
    !Truthy(Get(c, "active")) && (!Truthy(bound) || bound == Str(ifname))
  }

  /** `autoconnect-priority ?? 0`, for numeric priorities. */
  function Priority(c: Value): (p: int)
    ensures var prio := Get(ConnectionSettings(c), "autoconnect-priority");
      (prio.Num? ==> p == prio.n) && (!prio.Num? ==> p == 0)
  {
    NumberOr(Coalesce(Get(ConnectionSettings(c), "autoconnect-priority"), Num(0)), 0)
  }

  /** `all.filter(IsCandidate)`. */
  function Candidates(all: seq<Value>, ifname: string): (r: seq<Value>)
    ensures forall c :: c in r <==> c in all && IsCandidate(c, ifname)
    ensures |r| <= |all|
    ensures |all| == 1 ==> r == (if IsCandidate(all[0], ifname) then all else [])
  {
    if all == [] then []
    else (if IsCandidate(all[0], ifname) then [all[0]] else []) + Candidates(all[1..], ifname)
  }

  /** The filter distributes over concatenation, so candidates keep the
      order of the profile list. */
  lemma {:induction false} CandidatesAppend(xs: seq<Value>, ys: seq<Value>, ifname: string)
    ensures Candidates(xs + ys, ifname) == Candidates(xs, ifname) + Candidates(ys, ifname)
    decreases |xs|
  {
    if xs == [] {
      assert xs + ys == ys;
    } else {
      assert (xs + ys)[0] == xs[0];
      assert (xs + ys)[1..] == xs[1..] + ys;
      CandidatesAppend(xs[1..], ys, ifname);
    }
  }

  /** The head of the candidates after the stable sort by descending
      priority: the earliest candidate of the highest priority. */
  function FirstOfHighest(cs: seq<Value>): (r: nat)
    requires |cs| > 0
    ensures r < |cs|
    ensures forall k :: 0 <= k < |cs| ==> Priority(cs[k]) <= Priority(cs[r])
    ensures forall k :: 0 <= k < r ==> Priority(cs[k]) < Priority(cs[r])
    decreases |cs|
  {
    if |cs| == 1 then 0
    else
      var rest := FirstOfHighest(cs[1..]) + 1;
      if Priority(cs[0]) >= Priority(cs[rest]) then 0 else rest
  }

  /** The head of a list of profiles after the stable sort, given that of
      its tail. */
  lemma FirstOfHighestCons(x: Value, rest: seq<Value>)
    ensures rest == [] ==> FirstOfHighest([x] + rest) == 0
    ensures rest != [] ==> var k := FirstOfHighest(rest);
      FirstOfHighest([x] + rest) == (if Priority(x) >= Priority(rest[k]) then 0 else k + 1)
  {
    assert ([x] + rest)[1..] == rest;
  }

  /** One step of the filter. */
  lemma CandidatesCons(all: seq<Value>, ifname: string)
    requires all != []
    ensures Candidates(all, ifname) ==
      (if IsCandidate(all[0], ifname) then [all[0]] else []) + Candidates(all[1..], ifname)
  {
  }

  /** A lower-priority bound on the tail's candidates before j' carries
      over to the whole list when its head is no better. */
  lemma LowerBeforeShift(all: seq<Value>, ifname: string, j': nat)
    requires j' + 1 < |all|
    requires forall i :: 0 <= i < j' && IsCandidate(all[1..][i], ifname) ==>
      Priority(all[1..][i]) < Priority(all[1..][j'])
    requires IsCandidate(all[0], ifname) ==> Priority(all[0]) < Priority(all[j' + 1])
    ensures forall i :: 0 <= i < j' + 1 && IsCandidate(all[i], ifname) ==>
      Priority(all[i]) < Priority(all[j' + 1])
  {
    forall i | 0 < i < j' + 1 && IsCandidate(all[i], ifname)
      ensures Priority(all[i]) < Priority(all[j' + 1])
    {
      assert all[i] == all[1..][i - 1];
    }
  }

  /** The head of the profile list is the one the stable sort puts first
      when it is a candidate no later candidate outranks. */
  lemma ChosenIsHead(all: seq<Value>, ifname: string)
    requires all != [] && IsCandidate(all[0], ifname)
    requires var rest := Candidates(all[1..], ifname);
      rest == [] || Priority(all[0]) >= Priority(rest[FirstOfHighest(rest)])
    ensures Candidates(all, ifname) != []
    ensures Candidates(all, ifname)[FirstOfHighest(Candidates(all, ifname))] == all[0]
  {
    var rest := Candidates(all[1..], ifname);
    CandidatesCons(all, ifname);
    assert Candidates(all, ifname) == [all[0]] + rest;
    FirstOfHighestCons(all[0], rest);
  }

  /** Otherwise the profile the stable sort puts first is the one it puts
      first among the tail's candidates, and it outranks a candidate head. */
  lemma ChosenIsInTail(all: seq<Value>, ifname: string)
    requires all != [] && Candidates(all, ifname) != []
    requires var rest := Candidates(all[1..], ifname);
      !(IsCandidate(all[0], ifname) &&
        (rest == [] || Priority(all[0]) >= Priority(rest[FirstOfHighest(rest)])))
    ensures Candidates(all[1..], ifname) != []
    ensures var rest := Candidates(all[1..], ifname);
      Candidates(all, ifname)[FirstOfHighest(Candidates(all, ifname))] == rest[FirstOfHighest(rest)] &&
      (IsCandidate(all[0], ifname) ==> Priority(all[0]) < Priority(rest[FirstOfHighest(rest)]))
  {
    var rest := Candidates(all[1..], ifname);
    var cs := Candidates(all, ifname);
    CandidatesCons(all, ifname);
    if IsCandidate(all[0], ifname) {
      assert cs == [all[0]] + rest;
      FirstOfHighestCons(all[0], rest);
      assert cs[FirstOfHighest(rest) + 1] == rest[FirstOfHighest(rest)];
    } else {
      assert cs == rest by { assert [] + rest == rest; }
    }
  }

  /** Where the profile the stable sort puts first sits in the profile
      list itself: a candidate preceded only by candidates of lower
      priority. */
  function ChosenIndex(all: seq<Value>, ifname: string): (j: nat)
    requires Candidates(all, ifname) != []
    ensures j < |all| && all[j] == Candidates(all, ifname)[FirstOfHighest(Candidates(all, ifname))]
    ensures forall i :: 0 <= i < j && IsCandidate(all[i], ifname) ==> Priority(all[i]) < Priority(all[j])
    decreases |all|
  {
    var rest := Candidates(all[1..], ifname);
    if IsCandidate(all[0], ifname) && (rest == [] || Priority(all[0]) >= Priority(rest[FirstOfHighest(rest)])) then
      ChosenIsHead(all, ifname);
      0
    else
      ChosenIsInTail(all, ifname);
      var j' := ChosenIndex(all[1..], ifname);
      assert all[j' + 1] == all[1..][j'];
      LowerBeforeShift(all, ifname, j');
      j' + 1
  }

  datatype ConnectOutcome =
    | DeviceNotFound            // throws 'deviceConnect: device not found'
    | NoProfile                 // returns false
    | Activate(profile: Value)  // ActivateConnection(profile.path, devPath, '/'), returns true

  /** `deviceConnect(device)`: `devPath` is what the device search found and
      `all` the profile list of `getAllConnections(false)`. */
  function DeviceConnect(ifname: string, devPath: Value, all: seq<Value>): (r: ConnectOutcome)
    ensures r == DeviceNotFound <==> !Truthy(devPath)
    ensures r == NoProfile <==> Truthy(devPath) && forall c :: c in all ==> !IsCandidate(c, ifname)
    ensures r.Activate? ==>
      (IsCandidate(r.profile, ifname) && r.profile in all &&
       forall c :: c in all && IsCandidate(c, ifname) ==> Priority(c) <= Priority(r.profile))
    ensures r.Activate? ==>
      exists j :: 0 <= j < |all| && all[j] == r.profile &&
        forall i :: 0 <= i < j && IsCandidate(all[i], ifname) ==> Priority(all[i]) < Priority(r.profile)
  {
    if !Truthy(devPath) then DeviceNotFound
    else
      var cs := Candidates(all, ifname);
      if cs == [] then NoProfile
      else
        var k := FirstOfHighest(cs);
        assert cs[k] in cs;
        assert forall c :: c in cs ==> exists j :: 0 <= j < |cs| && cs[j] == c;
        var j := ChosenIndex(all, ifname);
        Activate(cs[k])
  }

  // ---------------------------------------------------------------------
  // Active connections grouped by profile
  // ---------------------------------------------------------------------

  /** The `[connPath, acPath]` pair for one active connection, or None when
      its `Connection` property is not a non-empty string (or the call
      threw, given as `props == None`). */
  function ActivePair(acPath: Value, props: Option<Value>): (r: Option<(string, Value)>)
    ensures r.Some? <==> props.Some? && Get(props.value, "Connection").Str? && Get(props.value, "Connection").s != ""
    ensures r.Some? ==> r.value.0 == Get(props.value, "Connection").s && r.value.0 != "" && r.value.1 == acPath
  {
    if props.Some? && Get(props.value, "Connection").Str? && Get(props.value, "Connection").s != "" then
      Some((Get(props.value, "Connection").s, acPath))
    else None
  }

  /** The active-connection paths of the pairs for profile c, in order. */
  function PathsFor(pairs: seq<Option<(string, Value)>>, c: string): seq<Value>
    decreases |pairs|
  {
    if pairs == [] then []
    else
      var n := |pairs| - 1;
      PathsFor(pairs[..n], c) + (if pairs[n].Some? && pairs[n].value.0 == c then [pairs[n].value.1] else [])
  }

  /** Profile c has active paths exactly when some pair names it. */
  lemma {:induction false} PathsForNonEmpty(pairs: seq<Option<(string, Value)>>, c: string)
    ensures PathsFor(pairs, c) != [] <==> exists k :: 0 <= k < |pairs| && pairs[k].Some? && pairs[k].value.0 == c
    decreases |pairs|
  {
    if pairs != [] {
      var n := |pairs| - 1;
      PathsForNonEmpty(pairs[..n], c);
      assert forall k :: 0 <= k < n ==> pairs[..n][k] == pairs[k];
    }
  }

  /** The loop that fills `activeMap`: every profile path that occurs maps
      to its active-connection paths, in the order of the pairs. */
  method BuildActiveMap(pairs: seq<Option<(string, Value)>>) returns (m: map<string, seq<Value>>)
    ensures forall c :: c in m <==> exists k :: 0 <= k < |pairs| && pairs[k].Some? && pairs[k].value.0 == c
    ensures forall c :: c in m ==> m[c] == PathsFor(pairs, c) && |m[c]| > 0
  {
    m := map[];
    var i := 0;
    while i < |pairs|
      invariant i <= |pairs|
      invariant forall c :: c in m <==> PathsFor(pairs[..i], c) != []
      invariant forall c :: c in m ==> m[c] == PathsFor(pairs[..i], c)
    {
      assert pairs[..i + 1][..i] == pairs[..i];
      var pair := pairs[i];
      if pair.Some? {
        var connPath := pair.value.0;
        var acPath := pair.value.1;
        var paths := if connPath in m then m[connPath] else [];
        m := m[connPath := paths + [acPath]];
      }
      i := i + 1;
    }
    assert pairs[..i] == pairs;
    forall c | true
      ensures c in m <==> exists k :: 0 <= k < |pairs| && pairs[k].Some? && pairs[k].value.0 == c
    {
      PathsForNonEmpty(pairs, c);
    }
  }

  /** `active.filter((p) => typeof p === 'string' && p.length > 0)` over the
      `ActiveConnections` of the parsed root bag (none when the reply was
      not an object or the call threw). */
  function ActivePaths(root: Option<Value>): (r: seq<string>)
    ensures root.None? || !Get(root.value, "ActiveConnections").Arr? ==> r == []
    ensures forall k :: 0 <= k < |r| ==> r[k] != ""
    ensures root.Some? && Get(root.value, "ActiveConnections").Arr? ==>
      var active := Get(root.value, "ActiveConnections").items;
      && (forall k :: 0 <= k < |r| ==> Str(r[k]) in active)
      && (forall k :: 0 <= k < |active| && active[k].Str? && active[k].s != "" ==> active[k].s in r)
  {
    if root.Some? && Get(root.value, "ActiveConnections").Arr? then
      NonEmptyStrings(Get(root.value, "ActiveConnections").items)
    else []
  }

  /** `filter((p) => typeof p === 'string' && p.length > 0)`. */
  function NonEmptyStrings(items: seq<Value>): (r: seq<string>)
    ensures forall k :: 0 <= k < |r| ==> r[k] != "" && Str(r[k]) in items
    ensures forall k :: 0 <= k < |items| && items[k].Str? && items[k].s != "" ==> items[k].s in r
    ensures |items| == 1 ==> r == (if items[0].Str? && items[0].s != "" then [items[0].s] else [])
  {
    if items == [] then []
    else
      var rest := NonEmptyStrings(items[1..]);
      assert forall k :: 1 <= k < |items| ==> items[k] == items[1..][k - 1];
      if items[0].Str? && items[0].s != "" then [items[0].s] + rest else rest
  }

  /** The filter distributes over concatenation, so the paths keep the
      order of `ActiveConnections`. */
  lemma {:induction false} NonEmptyStringsAppend(xs: seq<Value>, ys: seq<Value>)
    ensures NonEmptyStrings(xs + ys) == NonEmptyStrings(xs) + NonEmptyStrings(ys)
    decreases |xs|
  {
    if xs == [] {
      assert xs + ys == ys;
    } else {
      assert (xs + ys)[0] == xs[0];
      assert (xs + ys)[1..] == xs[1..] + ys;
      NonEmptyStringsAppend(xs[1..], ys);
    }
  }

  // ---------------------------------------------------------------------
  // getModem
  // ---------------------------------------------------------------------

  const ModemIface: string := "org.freedesktop.ModemManager1.Modem"
  const SimIface: string := "org.freedesktop.ModemManager1.Sim"

  datatype ModemInfo = NoModem | Modem(path: string, modem: Value, sim: Value)

  predicate IsModemEntry(e: (string, Value))
  {
    e.1.Obj? && ModemIface in e.1.fields
  }

  /** The managed objects that implement the modem interface, in key order. */
  function ModemEntries(objects: seq<(string, Value)>): (r: seq<(string, Value)>)
    ensures forall k :: 0 <= k < |r| ==> IsModemEntry(r[k]) && r[k] in objects
    ensures forall k :: 0 <= k < |objects| && IsModemEntry(objects[k]) ==> objects[k] in r
    ensures |r| <= |objects|
    ensures |objects| == 1 ==> r == (if IsModemEntry(objects[0]) then objects else [])
  {
    if objects == [] then []
    else
      assert forall k :: 1 <= k < |objects| ==> objects[k] == objects[1..][k - 1];
      (if IsModemEntry(objects[0]) then [objects[0]] else []) + ModemEntries(objects[1..])
  }

  /** The filter distributes over concatenation, so the modems keep the
      key order of the object table. */
  lemma {:induction false} ModemEntriesAppend(xs: seq<(string, Value)>, ys: seq<(string, Value)>)
    ensures ModemEntries(xs + ys) == ModemEntries(xs) + ModemEntries(ys)
    decreases |xs|
  {
    if xs == [] {
      assert xs + ys == ys;
    } else {
      assert (xs + ys)[0] == xs[0];
      assert (xs + ys)[1..] == xs[1..] + ys;
      ModemEntriesAppend(xs[1..], ys);
    }
  }

  /** `Math.max(0, parseInt(index) || 0)`; None stands for NaN. */
  function ModemIndex(index: Option<int>): (i: nat)
    ensures index.Some? && index.value > 0 ==> i == index.value
    ensures index.None? || index.value <= 0 ==> i == 0
  {
    if index.Some? && index.value > 0 then index.value else 0
  }

  /** `value || {}`. */
  function OrEmpty(v: Value): (r: Value)
    ensures Truthy(r)
    ensures Truthy(v) ==> r == v
    ensures !Truthy(v) ==> r == Obj(map[])
  {
    if Truthy(v) then v else Obj(map[])
  }

  /** `getModem(index)`: `objects` is the managed-object table as its entries
      in `Object.keys` order; a missing or empty path gives `{}`. */
  function GetModem(objects: seq<(string, Value)>, index: Option<int>): (r: ModemInfo)
    ensures r.Modem? <==> ModemIndex(index) < |ModemEntries(objects)| && ModemEntries(objects)[ModemIndex(index)].0 != ""
    ensures r.Modem? ==> r.path == ModemEntries(objects)[ModemIndex(index)].0 && Truthy(r.modem) && Truthy(r.sim)
    ensures r.Modem? ==> var ifaces := ModemEntries(objects)[ModemIndex(index)].1;
      && (Truthy(Get(ifaces, ModemIface)) ==> r.modem == Get(ifaces, ModemIface))
      && (!Truthy(Get(ifaces, ModemIface)) ==> r.modem == Obj(map[]))
      && (Truthy(Get(ifaces, SimIface)) ==> r.sim == Get(ifaces, SimIface))
      && (!Truthy(Get(ifaces, SimIface)) ==> r.sim == Obj(map[]))
  {
    var modems := ModemEntries(objects);
    var idx := ModemIndex(index);
    if idx >= |modems| || modems[idx].0 == "" then NoModem
    else
      var ifaces := modems[idx].1;
      Modem(modems[idx].0, OrEmpty(Get(ifaces, ModemIface)), OrEmpty(Get(ifaces, SimIface)))
  }

  /** Negative and unparsable indices select the first modem. */
  lemma ModemIndexClamps(objects: seq<(string, Value)>, index: Option<int>)
    requires index.None? || index.value < 0
    ensures GetModem(objects, index) == GetModem(objects, Some(0))
  {
  }
}
