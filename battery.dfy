/** The battery widget of bar/module/battery.js: from the property bag UPower
    reports for its display device it decides whether a battery is present,
    and if so shows the rounded percentage, one of ten level icons and a
    charging overlay. Signals from UPower device objects trigger a refresh.

    The bus is a parameter: a reply is the value a call resolved to, or None
    where the call threw. `JSON.parse`, `parseFloat` and `parseInt` are
    parameters too, each giving None where JavaScript throws or gives NaN
    (or, for `parseFloat`, a non-finite number). */
module Battery {
  import opened Common
  import opened JsValue

  const DisplayDevicePathDefault: string := "/org/freedesktop/UPower/devices/DisplayDevice"
  const DevicesPrefix: string := "/org/freedesktop/UPower/devices/"

  // ---------------------------------------------------------------------
  // The icon font's glyphs
  // ---------------------------------------------------------------------

  /** A one-character string holding the glyph at code point cp (the icon
      font's glyphs lie in the supplementary private use area, written in
      the source as surrogate pairs). */
  function Glyph(cp: int): (s: string)
    requires 0xF0000 <= cp <= 0xFFFFD
    ensures |s| == 1 && s[0] as int == cp
  {
    [cp as char]
  }

  const ChargeGlyph: string := Glyph(0xF140B)
  const Battery100Glyph: string := Glyph(0xF0079)

  /** The icon set `init` installs: one glyph per level key, plus the
      charging overlay. */
  const IconSet: map<string, string> := map[
    "statusCharge" := ChargeGlyph,
    "battery100" := Battery100Glyph,
    "battery10" := Glyph(0xF007A), "battery20" := Glyph(0xF007B),
    "battery30" := Glyph(0xF007C), "battery40" := Glyph(0xF007D),
    "battery50" := Glyph(0xF007E), "battery60" := Glyph(0xF007F),
    "battery70" := Glyph(0xF0080), "battery80" := Glyph(0xF0081),
    "battery90" := Glyph(0xF0082)]

  // ---------------------------------------------------------------------
  // The display device
  // ---------------------------------------------------------------------

  /** `getDisplayDevicePath`: the reply of GetDisplayDevice when it is a
      non-empty string, else the fixed DisplayDevice path (also when the
      call throws). */
  function DisplayDevicePath(reply: Option<Value>): (path: string)
    ensures path != ""
    ensures (reply.Some? && reply.value.Str? && reply.value.s != "") ==> path == reply.value.s
    ensures !(reply.Some? && reply.value.Str? && reply.value.s != "") ==> path == DisplayDevicePathDefault
  {
    if reply.Some? && reply.value.Str? && |reply.value.s| > 0 then reply.value.s
    else DisplayDevicePathDefault
  }

  // ---------------------------------------------------------------------
  // The property bag
  // ---------------------------------------------------------------------

  /** `parseObject(raw) || {}`: an object reply as it is, a string reply
      through `JSON.parse` (None where it throws), anything else, and any
      falsy outcome, as an empty object. */
  function PropsOf(raw: Value, parse: string -> Option<Value>): (props: Value)
    ensures Truthy(props)
    ensures (raw.Obj? || raw.Arr? || raw.Octets?) ==> props == raw
    ensures raw.Str? && parse(raw.s).None? ==> props == Obj(map[])
    ensures !(raw.Obj? || raw.Arr? || raw.Octets? || raw.Str?) ==> props == Obj(map[])
  {
    var parsed :=
      if raw.Obj? || raw.Arr? || raw.Octets? then raw
      else if raw.Str? then (match parse(raw.s) case Some(v) => v case None => Undefined)
      else Undefined;
    if Truthy(parsed) then parsed else Obj(map[])
  }

  /** `typeof props.Kind !== 'undefined' ? props.Kind : props.Type`: a
      defined Kind, even `null`, hides Type. */
  function TypeValue(props: Value): Value
  {
    var kind := Get(props, "Kind");
    if !kind.Undefined? then kind else Get(props, "Type")
  }

  predicate IsBatteryKind(v: Value) { v == Num(2) || v == Str("battery") }

  predicate IsPresentFlag(v: Value) { v == Bool(true) || v == Num(1) || v == Str("true") }

  /** The presence decision of `refresh`. */
  predicate HasBattery(props: Value): (b: bool)
    ensures b ==> IsPresentFlag(Get(props, "IsPresent"))
    ensures IsPresentFlag(Get(props, "IsPresent")) && Get(props, "PowerSupply") == Bool(true) ==> b
    ensures IsPresentFlag(Get(props, "IsPresent")) && !Get(props, "Percentage").Undefined? ==> b
  {
    IsPresentFlag(Get(props, "IsPresent")) &&
    (IsBatteryKind(TypeValue(props)) || !Get(props, "Percentage").Undefined? || Get(props, "PowerSupply") == Bool(true))
  }

  // ---------------------------------------------------------------------
  // Percentage, level bucket and icon
  // ---------------------------------------------------------------------

  /** The number `props.Percentage` stands for: itself when it is a number,
      else what `parseFloat` makes of it; None when that is not finite. */
  function PercentNumber(v: Value, parseFloat: Value -> Option<real>): Option<real>
  {
    if v.Num? then Some(v.n as real) else parseFloat(v)
  }

  /** `Math.round`: the nearest integer, halves rounding up. */
  function Round(x: real): (n: int)
    ensures n as real - 0.5 <= x < n as real + 0.5
  {
    (x + 0.5).Floor
  }

  /** `Math.max(0, Math.min(100, Math.round(pct)))`, a non-finite number
      having been replaced by 0. */
  function Percent(pct: Option<real>): (p: int)
    ensures 0 <= p <= 100
    ensures pct.None? ==> p == 0
    ensures pct.Some? && pct.value < 0.5 ==> p == 0
    ensures pct.Some? && pct.value >= 99.5 ==> p == 100
    ensures pct.Some? && 0.5 <= pct.value < 99.5 ==> p as real - 0.5 <= pct.value < p as real + 0.5
  {
    var n := if pct.Some? then Round(pct.value) else 0;
    if n < 0 then 0 else if n > 100 then 100 else n
  }

  /** The text shown beside the icon: `${percent}%`. */
  function PercentText(percent: nat): string
  {
    NatToString(percent) + "%"
  }

  /** The level bucket: 100 at full charge, else the percentage rounded
      down to a multiple of ten, but never below 10. */
  function Bucket(percent: int): (b: int)
    requires 0 <= percent <= 100
    ensures b % 10 == 0 && 10 <= b <= 100
    ensures percent == 100 ==> b == 100
    ensures 10 <= percent < 100 ==> b <= percent < b + 10
    ensures percent < 10 ==> b == 10
  {
    if percent == 100 then 100
    else
      var down := percent / 10 * 10;
      if down < 10 then 10 else down
  }

  function IconKey(bucket: nat): string
  {
    "battery" + NatToString(bucket)
  }

  /** `iconSet[key] || iconSet['battery100']`; the fallback is the glyph
      the icon set holds under 'battery100'. */
  function LevelIcon(percent: int): (icon: string)
    requires 0 <= percent <= 100
    ensures var b := Bucket(percent);
      icon == Glyph(0xF0079 + (if b == 100 then 0 else b / 10))
  {
    IconOfBucket(Bucket(percent));
    var key := IconKey(Bucket(percent));
    if key in IconSet && IconSet[key] != "" then IconSet[key] else Battery100Glyph
  }

  /** `typeof State === 'number' ? State : parseInt(State)`; None for NaN. */
  function StateNumber(v: Value, parseInt: Value -> Option<int>): Option<int>
  {
    if v.Num? then Some(v.n) else parseInt(v)
  }

  /** Charging (1) or pending charge (5). */
  predicate Charging(state: Option<int>)
  {
    state == Some(1) || state == Some(5)
  }

  /** The overlay on the icon: the charging glyph, or nothing. */
  function StatusText(state: Option<int>): (s: string)
    ensures s != "" <==> Charging(state)
  {
    if Charging(state) then IconSet["statusCharge"] else ""
  }

  // ---------------------------------------------------------------------
  // refresh
  // ---------------------------------------------------------------------

  /** What the widget displays: whether a battery was found, whether the
      element is enabled, and the three texts. */
  datatype Ui = Ui(hasBattery: bool, enabled: bool, text: string, icon: string, status: string)

  /** The state `refresh` leaves behind. A thrown call changes nothing; an
      absent battery disables the element and keeps the texts; a present
      one enables it and sets all three texts. */
  function Refreshed(s: Ui, reply: Option<Value>, parse: string -> Option<Value>,
                     parseFloat: Value -> Option<real>, parseInt: Value -> Option<int>): (t: Ui)
    ensures reply.None? ==> t == s
    ensures reply.Some? ==> t.hasBattery == HasBattery(PropsOf(reply.value, parse)) && t.enabled == t.hasBattery
    ensures !t.hasBattery ==> t.text == s.text && t.icon == s.icon && t.status == s.status
    ensures reply.Some? && t.hasBattery ==>
      var props := PropsOf(reply.value, parse);
      var p := Percent(PercentNumber(Get(props, "Percentage"), parseFloat));
      t.text == PercentText(p) && t.icon == LevelIcon(p) &&
      t.status == StatusText(StateNumber(Get(props, "State"), parseInt))
  {
    match reply
    case None => s
    case Some(raw) =>
      var props := PropsOf(raw, parse);
      if !HasBattery(props) then s.(hasBattery := false, enabled := false)
      else
        var percent := Percent(PercentNumber(Get(props, "Percentage"), parseFloat));
        var state := StateNumber(Get(props, "State"), parseInt);
        Ui(true, true, PercentText(percent), LevelIcon(percent), StatusText(state))
  }

  /** `sig && sig.path && (sig.path === devicePath ||
      sig.path.startsWith(prefix))`: a truthy path that is not a string has
      no `startsWith`, and the handler's catch swallows the error. */
  predicate SignalTriggers(sig: Value, devicePath: string): (b: bool)
    ensures b ==> Get(sig, "path").Str? && Get(sig, "path").s != ""
    ensures devicePath != "" && Get(sig, "path") == Str(devicePath) ==> b
  {
    var path := Get(sig, "path");
    Truthy(sig) && Truthy(path) && path.Str? && (path.s == devicePath || StartsWith(path.s, DevicesPrefix))
  }

  // ---------------------------------------------------------------------
  // The widget
  // ---------------------------------------------------------------------

  class BatteryWidget {
    /** `_upowerDevicePath`; "" until `init` has asked for it. */
    var devicePath: string
    /** Whether `init` installed the signal handler. */
    var subscribed: bool
    var hasBattery: bool
    var enabled: bool
    var text: string
    var icon: string
    var status: string

    ghost function View(): Ui
      reads this
    {
      Ui(hasBattery, enabled, text, icon, status)
    }

    ghost predicate Valid()
      reads this
    {
      (hasBattery ==> enabled) && (subscribed ==> devicePath != "")
    }

    /** The element as built: enabled, with the placeholder texts, and no
        battery known yet. */
    constructor()
      ensures Valid()
      ensures View() == Ui(false, true, "76%", Glyph(0xF0083), ChargeGlyph)
      ensures devicePath == "" && !subscribed
    {
      devicePath := "";
      subscribed := false;
      hasBattery := false;
      enabled := true;
      text := "76%";
      icon := Glyph(0xF0083);
      status := ChargeGlyph;
    }

    /** `refresh()`: one GetAll of the device's properties. */
    method Refresh(reply: Option<Value>, parse: string -> Option<Value>,
                   parseFloat: Value -> Option<real>, parseInt: Value -> Option<int>)
      requires Valid()
      modifies this
      ensures Valid()
      ensures View() == Refreshed(old(View()), reply, parse, parseFloat, parseInt)
      ensures devicePath == old(devicePath) && subscribed == old(subscribed)
    {
      if reply.None? {
        return;
      }
      var props := PropsOf(reply.value, parse);
      hasBattery := HasBattery(props);
      if !hasBattery {
        enabled := false;
        return;
      }
      enabled := true;
      var percent := Percent(PercentNumber(Get(props, "Percentage"), parseFloat));
      text := PercentText(percent);
      icon := LevelIcon(percent);
      var state := StateNumber(Get(props, "State"), parseInt);
      status := StatusText(state);
    }

    /** `init()`: find the display device, refresh once, and subscribe to
        UPower's signals only when that refresh found a battery. */
    method Init(deviceReply: Option<Value>, reply: Option<Value>, parse: string -> Option<Value>,
                parseFloat: Value -> Option<real>, parseInt: Value -> Option<int>)
      requires Valid()
      modifies this
      ensures Valid()
      ensures devicePath == DisplayDevicePath(deviceReply)
      ensures View() == Refreshed(old(View()), reply, parse, parseFloat, parseInt)
      ensures subscribed == (old(subscribed) || hasBattery)
    {
      devicePath := DisplayDevicePath(deviceReply);
      Refresh(reply, parse, parseFloat, parseInt);
      if hasBattery {
        subscribed := true;
      }
    }

    /** The installed handler receiving a signal: a refresh (whose reply is
        `reply`) when the handler exists and the signal's path qualifies,
        else nothing. */
    method OnSignal(sig: Value, reply: Option<Value>, parse: string -> Option<Value>,
                    parseFloat: Value -> Option<real>, parseInt: Value -> Option<int>)
      requires Valid()
      modifies this
      ensures Valid()
      ensures devicePath == old(devicePath) && subscribed == old(subscribed)
      ensures subscribed && SignalTriggers(sig, devicePath) ==>
        View() == Refreshed(old(View()), reply, parse, parseFloat, parseInt)
      ensures !(subscribed && SignalTriggers(sig, devicePath)) ==> View() == old(View())
    {
      if subscribed && SignalTriggers(sig, devicePath) {
        Refresh(reply, parse, parseFloat, parseInt);
      }
    }
  }

  // ---------------------------------------------------------------------
  // Properties
  // ---------------------------------------------------------------------

  /** The level key is always one the icon set holds, so the
      `battery100` fallback never applies: each bucket b shows its own
      glyph, the one b/10 places after the full-battery glyph (which the
      100 bucket shows). */
  lemma LevelIconOfBucket(percent: int)
    requires 0 <= percent <= 100
    ensures IconKey(Bucket(percent)) in IconSet
    ensures var b := Bucket(percent);
      LevelIcon(percent) == Glyph(0xF0079 + (if b == 100 then 0 else b / 10))
  {
    var b := Bucket(percent);
    IconOfBucket(b);
  }

  /** The icon of each bucket, bucket by bucket. */
  lemma IconOfBucket(b: int)
    requires b % 10 == 0 && 10 <= b <= 100
    ensures IconKey(b) in IconSet
    ensures IconSet[IconKey(b)] == Glyph(0xF0079 + (if b == 100 then 0 else b / 10))
  {
    if b == 100 {
      assert NatToString(1) == "1";
      assert NatToString(10) == "10";
      assert IconKey(b) == "battery100";
    } else {
      var t := b / 10;
      TensKey(t);
      assert b == 10 * t;
      if t == 1 { assert IconKey(b) == "battery10"; }
      else if t == 2 { assert IconKey(b) == "battery20"; }
      else if t == 3 { assert IconKey(b) == "battery30"; }
      else if t == 4 { assert IconKey(b) == "battery40"; }
      else if t == 5 { assert IconKey(b) == "battery50"; }
      else if t == 6 { assert IconKey(b) == "battery60"; }
      else if t == 7 { assert IconKey(b) == "battery70"; }
      else if t == 8 { assert IconKey(b) == "battery80"; }
      else { assert IconKey(b) == "battery90"; }
    }
  }

  /** The key of bucket 10t, for a single digit t, is "battery", t, "0". */
  lemma TensKey(t: nat)
    requires 1 <= t <= 9
    ensures IconKey(10 * t) == "battery" + [DigitChar(t), '0']
  {
    assert NatToString(10 * t) == NatToString(t) + [DigitChar(0)];
  }

  /** Two percentages in different buckets never show the same icon. */
  lemma LevelIconsDistinguishBuckets(p: int, q: int)
    requires 0 <= p <= 100 && 0 <= q <= 100
    requires Bucket(p) != Bucket(q)
    ensures LevelIcon(p) != LevelIcon(q)
  {
    LevelIconOfBucket(p);
    LevelIconOfBucket(q);
    var bp := Bucket(p);
    var bq := Bucket(q);
    assert LevelIcon(p)[0] as int == 0xF0079 + (if bp == 100 then 0 else bp / 10);
    assert LevelIcon(q)[0] as int == 0xF0079 + (if bq == 100 then 0 else bq / 10);
  }

  /** The percentage text reads back as the percentage, followed by '%'. */
  lemma PercentTextReadsBack(percent: nat)
    ensures var t := PercentText(percent);
      t[|t| - 1] == '%' && AllDigits(t[..|t| - 1]) && DigitsValue(t[..|t| - 1]) == percent
  {
    var t := PercentText(percent);
    assert t[..|t| - 1] == NatToString(percent);
    NatToStringRoundTrip(percent);
  }

  /** A battery is never reported without one of the three IsPresent
      spellings, and a reply that is not an object, or a string that does
      not parse, reports none. */
  lemma PresenceNeedsIsPresent(raw: Value, parse: string -> Option<Value>)
    ensures HasBattery(PropsOf(raw, parse)) ==>
      Get(PropsOf(raw, parse), "IsPresent") in {Bool(true), Num(1), Str("true")}
    ensures (raw.Str? && parse(raw.s).None?) || raw.Num? || raw.Bool? || Nullish(raw) ==>
      !HasBattery(PropsOf(raw, parse))
  {
  }

  /** Once Kind is defined (a `null` Kind included) the Type field has no
      say in the decision. */
  lemma DefinedKindHidesType(fields: map<string, Value>, t: Value)
    requires "Kind" in fields && !fields["Kind"].Undefined?
    ensures HasBattery(Obj(fields["Type" := t])) == HasBattery(Obj(fields))
  {
    var g := fields["Type" := t];
    assert Get(Obj(g), "Kind") == Get(Obj(fields), "Kind");
    assert Get(Obj(g), "IsPresent") == Get(Obj(fields), "IsPresent");
    assert Get(Obj(g), "Percentage") == Get(Obj(fields), "Percentage");
    assert Get(Obj(g), "PowerSupply") == Get(Obj(fields), "PowerSupply");
  }

  /** A `null` Kind with a battery Type and no other hint is no battery. */
  lemma NullKindExample()
    ensures !HasBattery(Obj(map["IsPresent" := Bool(true), "Kind" := Null, "Type" := Num(2)]))
    ensures HasBattery(Obj(map["IsPresent" := Bool(true), "Type" := Num(2)]))
  {
    var a := map["IsPresent" := Bool(true), "Kind" := Null, "Type" := Num(2)];
    assert Get(Obj(a), "Kind") == Null;
    assert Get(Obj(a), "Percentage") == Undefined;
    assert Get(Obj(a), "PowerSupply") == Undefined;
  }

  /** A refresh that finds a battery shows a percentage between 0 and 100
      with its own bucket's icon, and the overlay exactly while the State
      is 1 or 5; one that finds none leaves all three texts. */
  lemma RefreshShows(s: Ui, raw: Value, parse: string -> Option<Value>,
                     parseFloat: Value -> Option<real>, parseInt: Value -> Option<int>)
    ensures var props := PropsOf(raw, parse);
      var t := Refreshed(s, Some(raw), parse, parseFloat, parseInt);
      var p := Percent(PercentNumber(Get(props, "Percentage"), parseFloat));
      t.hasBattery ==>
        0 <= p <= 100 && t.text == PercentText(p) &&
        t.icon == Glyph(0xF0079 + (if Bucket(p) == 100 then 0 else Bucket(p) / 10)) &&
        (t.status != "" <==> Charging(StateNumber(Get(props, "State"), parseInt)))
  {
    var props := PropsOf(raw, parse);
    var t := Refreshed(s, Some(raw), parse, parseFloat, parseInt);
    if t.hasBattery {
      var p := Percent(PercentNumber(Get(props, "Percentage"), parseFloat));
      LevelIconOfBucket(p);
    }
  }

  /** The display device's own signals always qualify, and so do those of
      every other UPower device object; the daemon's root object does not
      unless it is the device path itself. */
  lemma SignalPaths(devicePath: string)
    ensures SignalTriggers(Obj(map["path" := Str(devicePath)]), devicePath) <==> devicePath != ""
    ensures SignalTriggers(Obj(map["path" := Str(DisplayDevicePathDefault)]), devicePath)
    ensures devicePath != "/org/freedesktop/UPower" ==>
      !SignalTriggers(Obj(map["path" := Str("/org/freedesktop/UPower")]), devicePath)
  {
    assert StartsWith(DisplayDevicePathDefault, DevicesPrefix) by {
      assert DisplayDevicePathDefault[..|DevicesPrefix|] == DevicesPrefix;
    }
  }

  /** A signal whose path is not a string never triggers a refresh. */
  lemma NonStringPathIgnored(sig: Value, devicePath: string)
    requires !Get(sig, "path").Str?
    ensures !SignalTriggers(sig, devicePath)
  {
  }
}
