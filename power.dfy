/** The power-profile widget of bar/module/power.js: three icons, one per
    power-profiles-daemon profile, of which the active one is drawn in the
    configured colour and the others in the disabled colour. The widget is
    shown while the daemon answers and hidden once a query fails.

    The bus is a parameter: a reply is the value GetAll resolved to, or
    None where connecting or the call threw; `JSON.parse` is a parameter
    giving None where it throws. */
module Power {
  import opened Common
  import opened JsValue

  const ServiceName: string := "net.hadess.PowerProfiles"
  const ServicePath: string := "/net/hadess/PowerProfiles"
  const PropertiesIface: string := "org.freedesktop.DBus.Properties"

  /** The profiles, in the order the icons are laid out and coloured. */
  const Profiles: seq<string> := ["power-saver", "balanced", "performance"]

  /** The same profiles, as the keys of the icon table. */
  const ProfileSet: set<string> := {"power-saver", "balanced", "performance"}

  /** What one `refresh` learns: the daemon is unavailable (a thrown
      call, or a property bag that is `null` or `undefined`, on which
      reading ActiveProfile throws), or available with the active profile
      when ActiveProfile is a string. */
  datatype Outcome = Unavailable | Available(active: Option<string>)

  /** The props of `refresh`: a string reply through `JSON.parse`, `{}`
      where that throws; any other reply, `{}` when falsy. */
  function PropsOf(raw: Value, parse: string -> Option<Value>): (props: Value)
    ensures !raw.Str? ==> !Nullish(props)
    ensures raw.Str? && parse(raw.s).None? ==> props == Obj(map[])
  {
    if raw.Str? then (match parse(raw.s) case Some(v) => v case None => Obj(map[]))
    else if Truthy(raw) then raw
    else Obj(map[])
  }

  function OutcomeOf(reply: Option<Value>, parse: string -> Option<Value>): (o: Outcome)
    ensures reply.None? ==> o == Unavailable
    ensures o.Unavailable? && reply.Some? ==> reply.value.Str? && parse(reply.value.s).Some? && Nullish(parse(reply.value.s).value)
    ensures o.Available? <==> reply.Some? && !Nullish(PropsOf(reply.value, parse))
    ensures o.Available? ==> o.active == StringField(Get(PropsOf(reply.value, parse), "ActiveProfile"))
    ensures o.Available? && o.active.Some? ==> Get(PropsOf(reply.value, parse), "ActiveProfile") == Str(o.active.value)
  {
    match reply
    case None => Unavailable
    case Some(raw) =>
      var props := PropsOf(raw, parse);
      if Nullish(props) then Unavailable
      else Available(StringField(Get(props, "ActiveProfile")))
  }

  /** The icon colours a successful refresh sets: the active colour for
      the profile named active, the disabled colour for the rest. */
  function Highlight(active: Option<string>, activeColour: string, disabledColour: string): (colours: map<string, string>)
    ensures colours.Keys == ProfileSet
  {
    map p | p in ProfileSet :: if active == Some(p) then activeColour else disabledColour
  }

  /** What the widget displays. */
  datatype PowerUi = PowerUi(available: bool, enabled: bool, colours: map<string, string>)

  /** The state `refresh` leaves behind: unavailable hides the element and
      keeps the colours; available shows it and highlights the active
      profile. */
  function Refreshed(s: PowerUi, o: Outcome, activeColour: string, disabledColour: string): (t: PowerUi)
    ensures t.available == o.Available? && t.enabled == t.available
    ensures o.Unavailable? ==> t.colours == s.colours
    ensures o.Available? ==> t.colours == Highlight(o.active, activeColour, disabledColour)
  {
    match o
    case Unavailable => s.(available := false, enabled := false)
    case Available(active) => PowerUi(true, true, Highlight(active, activeColour, disabledColour))
  }

  /** A bus call the widget issues. */
  datatype BusCall = BusCall(destination: string, path: string, iface: string, member: string,
                             signature: string, args: seq<Value>)

  /** The Set of ActiveProfile, with the profile as a string variant. */
  function SetProfileCall(profile: string): (call: BusCall)
    ensures call.destination == ServiceName && call.path == ServicePath && call.iface == PropertiesIface
    ensures call.member == "Set" && call.signature == "ssv" && |call.args| == 3
    ensures call.args[1] == Str("ActiveProfile") && Get(call.args[2], "_v") == Str(profile)
  {
    BusCall(ServiceName, ServicePath, PropertiesIface, "Set", "ssv",
            [Str(ServiceName), Str("ActiveProfile"), Obj(map["_t" := Str("s"), "_v" := Str(profile)])])
  }

  /** The filter of the signal handler: a PropertiesChanged signal of the
      properties interface, on the daemon's path or carrying the daemon's
      interface name as its body. */
  predicate RefreshSignal(sig: Value): (b: bool)
    ensures b ==> Get(sig, "member") == Str("PropertiesChanged") && Get(sig, "interface") == Str(PropertiesIface)
    ensures (Get(sig, "member") == Str("PropertiesChanged") && Get(sig, "interface") == Str(PropertiesIface) &&
             Get(sig, "path") == Str(ServicePath)) ==> b
  {
    Truthy(sig) &&
    Get(sig, "member") == Str("PropertiesChanged") && Get(sig, "interface") == Str(PropertiesIface) &&
    (Get(sig, "path") == Str(ServicePath) || Get(sig, "body") == Str(ServiceName))
  }

  /** A table over the three profiles agreeing with Highlight at each of
      them is Highlight. */
  lemma HighlightOfEachProfile(colours: map<string, string>, active: Option<string>, activeColour: string, disabledColour: string)
    requires colours.Keys == ProfileSet
    requires forall j :: 0 <= j < |Profiles| ==>
      colours[Profiles[j]] == if active == Some(Profiles[j]) then activeColour else disabledColour
    ensures colours == Highlight(active, activeColour, disabledColour)
  {
    var h := Highlight(active, activeColour, disabledColour);
    assert colours[Profiles[0]] == h[Profiles[0]];
    assert colours[Profiles[1]] == h[Profiles[1]];
    assert colours[Profiles[2]] == h[Profiles[2]];
    assert forall p :: p in ProfileSet ==> p == Profiles[0] || p == Profiles[1] || p == Profiles[2];
  }

  class PowerWidget {
    const activeColour: string
    const disabledColour: string
    /** `hasPowerProfiles`; `undefined`, read as false, until a refresh. */
    var available: bool
    var enabled: bool
    /** The text colour of each profile's icon. */
    var colours: map<string, string>
    /** Whether `init` installed the signal handler. */
    var subscribed: bool

    ghost function View(): PowerUi
      reads this
    {
      PowerUi(available, enabled, colours)
    }

    ghost predicate Valid()
      reads this
    {
      colours.Keys == ProfileSet && (available ==> enabled)
    }

    /** The icons are created in the disabled colour. */
    constructor(activeColour: string, disabledColour: string)
      ensures Valid()
      ensures this.activeColour == activeColour && this.disabledColour == disabledColour
      ensures View() == PowerUi(false, true, Highlight(None, activeColour, disabledColour))
      ensures !subscribed
    {
      this.activeColour := activeColour;
      this.disabledColour := disabledColour;
      available := false;
      enabled := true;
      colours := Highlight(None, activeColour, disabledColour);
      subscribed := false;
    }

    /** `refresh()`: the loop over the three profiles colours each icon. */
    method Refresh(reply: Option<Value>, parse: string -> Option<Value>)
      requires Valid()
      modifies this
      ensures Valid()
      ensures View() == Refreshed(old(View()), OutcomeOf(reply, parse), activeColour, disabledColour)
      ensures subscribed == old(subscribed)
    {
      var o := OutcomeOf(reply, parse);
      if o.Unavailable? {
        available := false;
        enabled := false;
        return;
      }
      available := true;
      enabled := true;
      var i := 0;
      while i < |Profiles|
        invariant 0 <= i <= |Profiles|
        invariant available && enabled && subscribed == old(subscribed)
        invariant colours.Keys == ProfileSet
        invariant forall j :: 0 <= j < i ==> colours[Profiles[j]] == if o.active == Some(Profiles[j]) then activeColour else disabledColour
      {
        var p := Profiles[i];
        colours := colours[p := if o.active == Some(p) then activeColour else disabledColour];
        i := i + 1;
      }
      HighlightOfEachProfile(colours, o.active, activeColour, disabledColour);
    }

    /** `activateProfile(profile)`: nothing while the daemon is not known to
        be available; else the one Set call. No field changes either way;
        the icons follow when the daemon's PropertiesChanged arrives. */
    method ActivateProfile(profile: string) returns (call: Option<BusCall>)
      ensures call.Some? <==> available
      ensures call.Some? ==> call.value.member == "Set" && |call.value.args| == 3 && call.value.args[2] == Obj(map["_t" := Str("s"), "_v" := Str(profile)])
      ensures call.Some? ==> call.value == SetProfileCall(profile)
    {
      if !available {
        return None;
      }
      return Some(SetProfileCall(profile));
    }

    /** `init()`: refresh, then subscribe only when the daemon answered and
        the match rules could be added (`matchAdded`). */
    method Init(reply: Option<Value>, parse: string -> Option<Value>, matchAdded: bool)
      requires Valid()
      modifies this
      ensures Valid()
      ensures View() == Refreshed(old(View()), OutcomeOf(reply, parse), activeColour, disabledColour)
      ensures subscribed == (old(subscribed) || (available && matchAdded))
    {
      Refresh(reply, parse);
      if !available {
        return;
      }
      if matchAdded {
        subscribed := true;
      }
    }

    /** The handler receiving a signal: a refresh when it is installed and
        the signal passes the filter. */
    method OnSignal(sig: Value, reply: Option<Value>, parse: string -> Option<Value>)
      requires Valid()
      modifies this
      ensures Valid()
      ensures subscribed == old(subscribed)
      ensures subscribed && RefreshSignal(sig) ==>
        View() == Refreshed(old(View()), OutcomeOf(reply, parse), activeColour, disabledColour)
      ensures !(subscribed && RefreshSignal(sig)) ==> View() == old(View())
    {
      if subscribed && RefreshSignal(sig) {
        Refresh(reply, parse);
      }
    }
  }

  // ---------------------------------------------------------------------
  // Properties
  // ---------------------------------------------------------------------

  /** Exclusive highlighting: with two distinct colours, an icon is drawn
      in the active colour exactly when its profile is the active one, so
      at most one is, and none when ActiveProfile names no profile. */
  lemma HighlightIsExclusive(active: Option<string>, activeColour: string, disabledColour: string)
    requires activeColour != disabledColour
    ensures forall p :: p in ProfileSet ==>
      (Highlight(active, activeColour, disabledColour)[p] == activeColour <==> active == Some(p))
    ensures forall p, q :: (p in ProfileSet && q in ProfileSet &&
      Highlight(active, activeColour, disabledColour)[p] == activeColour &&
      Highlight(active, activeColour, disabledColour)[q] == activeColour) ==> p == q
    ensures (active.None? || active.value !in ProfileSet) ==>
      forall p :: p in ProfileSet ==> Highlight(active, activeColour, disabledColour)[p] == disabledColour
  {
  }

  /** What a successful refresh shows, from the reply itself: with two
      distinct colours, an icon is drawn in the configured colour exactly
      when the reply's ActiveProfile is that icon's profile, and every icon
      is disabled-coloured when ActiveProfile is not a string. */
  lemma RefreshHighlightsActiveProfile(s: PowerUi, reply: Option<Value>, parse: string -> Option<Value>,
                                       activeColour: string, disabledColour: string)
    requires activeColour != disabledColour
    requires OutcomeOf(reply, parse).Available?
    ensures var t := Refreshed(s, OutcomeOf(reply, parse), activeColour, disabledColour);
      var ap := Get(PropsOf(reply.value, parse), "ActiveProfile");
      && t.available && t.colours.Keys == ProfileSet
      && (forall p :: p in ProfileSet ==> (t.colours[p] == activeColour <==> ap == Str(p)))
      && (!ap.Str? ==> forall p :: p in ProfileSet ==> t.colours[p] == disabledColour)
  {
    var o := OutcomeOf(reply, parse);
    HighlightIsExclusive(o.active, activeColour, disabledColour);
  }

  /** A reply string that does not parse still counts as available, with
      no icon highlighted. */
  lemma UnparsableReplyIsAvailable(s: string, parse: string -> Option<Value>)
    requires parse(s).None?
    ensures OutcomeOf(Some(Str(s)), parse) == Available(None)
  {
    assert Get(Obj(map[]), "ActiveProfile") == Undefined;
  }

  /** A string reply that parses to `null` makes the widget unavailable
      (reading ActiveProfile of `null` throws), while a `null` reply that is
      not a string reads as `{}`. */
  lemma NullPropsAreUnavailable(s: string, parse: string -> Option<Value>)
    requires parse(s) == Some(Null)
    ensures OutcomeOf(Some(Str(s)), parse) == Unavailable
    ensures OutcomeOf(Some(Null), parse) == Available(None)
  {
    assert Get(Obj(map[]), "ActiveProfile") == Undefined;
  }

  /** A failed refresh followed by a successful one restores what a single
      successful refresh shows: the unavailable state leaves no trace. */
  lemma RecoveryForgetsFailure(s: PowerUi, o: Outcome, activeColour: string, disabledColour: string)
    requires o.Available?
    ensures Refreshed(Refreshed(s, Unavailable, activeColour, disabledColour), o, activeColour, disabledColour)
         == Refreshed(s, o, activeColour, disabledColour)
  {
  }

  /** The handler ignores signals of other members or interfaces, and
      property changes of other objects. */
  lemma SignalFilter(member: string, iface: string, path: string)
    ensures RefreshSignal(Obj(map["member" := Str(member), "interface" := Str(iface), "path" := Str(path)]))
      <==> member == "PropertiesChanged" && iface == PropertiesIface && path == ServicePath
  {
    var sig := Obj(map["member" := Str(member), "interface" := Str(iface), "path" := Str(path)]);
    assert Get(sig, "body") == Undefined;
    assert Get(sig, "member") == Str(member);
    assert Get(sig, "interface") == Str(iface);
    assert Get(sig, "path") == Str(path);
  }
}
