/** The wallpaper of bar/wallpaper.js: one background window per display,
    each with two stacked canvases. Changing the wallpaper puts the new
    texture on the upper canvas (B) and fades it in; when the fade ends the
    lower canvas (A) takes the texture too and becomes the display's
    `current` wallpaper.

    `Compositor.listDisplays()` is a parameter (the display names, in the
    order it lists them). Videos are handed to ffmpeg; the model records
    each `ff.load` request. */
module Wallpapers {
  import opened Common

  // ---------------------------------------------------------------------
  // File names and asset keys
  // ---------------------------------------------------------------------

  /** `getExtension(filename)`: the text after the last '.', or "" when
      there is none. */
  function GetExtension(filename: string): (ext: string)
    ensures '.' !in ext && |ext| <= |filename|
    ensures '.' !in filename ==> ext == ""
  {
    match LastIndexOf(filename, '.')
    case None => ""
    case Some(lastDot) => filename[lastDot + 1..]
  }

  /** The extensions `changeTo` hands to ffmpeg, after lower-casing. */
  const VideoExtensions: set<string> := {"mp4", "mov", "3gp", "3g2", "mkv", "webm", "avi", "gif", "apng"}

  predicate IsVideo(path: string): (b: bool)
    ensures b ==> '.' in path && 3 <= |GetExtension(path)| <= 4
  {
    ToLowerAscii(GetExtension(path)) in VideoExtensions
  }

  /** The prefix of a video's asset key. The source interpolates
      `display.display`, but `display` is already the display's name, a
      string, whose `.display` is `undefined`. */
  const VideoKeyPrefix: string := "/ram/video/undefined:"

  /** The asset key of a path: the ffmpeg key for a video, the path itself
      for anything else (jpg, jpeg, png and every other extension). */
  function AssetKey(path: string): (key: string)
    ensures |key| >= |path|
  {
    if IsVideo(path) then VideoKeyPrefix + path else path
  }

  // ---------------------------------------------------------------------
  // One display's background
  // ---------------------------------------------------------------------

  /** The animation last started on a canvas; `Undefined` is `animB.hide`,
      which the canvas's animation table does not define. */
  datatype CanvasAnim = Hidden | Shown | FadeIn | Undefined

  /** `backgrounds[display]`: `active` as set by the constructor, the
      `current` wallpaper (`undefined` until the first fade ends), the two
      canvases' textures and animations, and the key the registered
      fade-end handler will install. */
  datatype Background = Background(
    active: string, current: Option<string>,
    textureA: Option<string>, textureB: Option<string>,
    animA: CanvasAnim, animB: CanvasAnim,
    pending: Option<string>)

  /** A display's background as the constructor leaves it: both canvases
      hidden and empty. */
  const InitialBackground: Background := Background("", None, None, None, Hidden, Hidden, None)

  /** What one `changeTo(path, display)` does: throw on an unknown display
      (destructuring `undefined`), return on an empty key, or start the
      fade to the key. */
  datatype Change = Threw | NoKey | Changed(key: string)

  function ChangeOutcome(backgrounds: map<string, Background>, path: string, display: string): (c: Change)
    ensures c.Threw? <==> display !in backgrounds
    ensures c.NoKey? <==> display in backgrounds && path == ""
    ensures c.Changed? ==> c.key == AssetKey(path) && c.key != ""
  {
    if display !in backgrounds then Threw
    else if AssetKey(path) == "" then NoKey
    else Changed(AssetKey(path))
  }

  /** The fade starts: canvas B shows the key and fades in, and the
      fade-end handler is registered for the key. */
  function FadeStarted(b: Background, key: string): Background
  {
    b.(textureB := Some(key), animB := FadeIn, pending := Some(key))
  }

  /** The fade ends: the registered handler records the key as `current`,
      puts it on canvas A, shows A and starts `animB.hide` on B. */
  function FadeEnded(b: Background): Background
  {
    match b.pending
    case None => b
    case Some(key) => b.(current := Some(key), textureA := Some(key), animA := Shown, animB := Undefined)
  }

  /** An `ff.load(win, key, path)` request. */
  datatype Load = Load(display: string, key: string, path: string)

  /** The wallpaper's state: each display's background, and every
      `ff.load` request so far, oldest first. */
  datatype WallState = WallState(backgrounds: map<string, Background>, loads: seq<Load>)

  /** The state after `changeTo(path, display)` on one display: unchanged
      when it throws; a load request for a video; and, unless the key is
      empty, the fade to the key started on that display. */
  function ChangedOn(s: WallState, path: string, display: string): WallState
  {
    match ChangeOutcome(s.backgrounds, path, display)
    case Threw => s
    case NoKey => s
    case Changed(key) =>
      var loads := if IsVideo(path) then s.loads + [Load(display, key, path)] else s.loads;
      WallState(s.backgrounds[display := FadeStarted(s.backgrounds[display], key)], loads)
  }

  /** The state after the wildcard change over ds: the displays in turn,
      stopping at the first that has no background. */
  function FanOut(s: WallState, path: string, ds: seq<string>): WallState
    decreases |ds|
  {
    if ds == [] || ds[0] !in s.backgrounds then s
    else FanOut(ChangedOn(s, path, ds[0]), path, ds[1..])
  }

  /** The number of displays the fan-out reaches: it stops at the first
      one without a background, where `changeTo` throws. */
  function Reached(displays: seq<string>, backgrounds: map<string, Background>): (n: nat)
    ensures n <= |displays|
    ensures forall j :: 0 <= j < n ==> displays[j] in backgrounds
    ensures n < |displays| ==> displays[n] !in backgrounds
  {
    if displays == [] || displays[0] !in backgrounds then 0
    else 1 + Reached(displays[1..], backgrounds)
  }

  class Wallpaper {
    var backgrounds: map<string, Background>
    /** Every `ff.load` request so far, oldest first. */
    var loads: seq<Load>

    ghost function State(): WallState
      reads this
    {
      WallState(backgrounds, loads)
    }

    /** One background per listed display, each starting hidden. */
    constructor(displays: seq<string>)
      ensures backgrounds == map d | d in displays :: InitialBackground
      ensures loads == []
    {
      var table := map[];
      var i := 0;
      while i < |displays|
        invariant 0 <= i <= |displays|
        invariant table == map d | d in displays[..i] :: InitialBackground
      {
        table := table[displays[i] := InitialBackground];
        assert displays[..i + 1] == displays[..i] + [displays[i]];
        i := i + 1;
      }
      assert displays[..i] == displays;
      backgrounds := table;
      loads := [];
    }

    /** `changeTo(path, display)` for one display: throw when the display
        has no background; ask ffmpeg to load a video; return on an empty
        key; otherwise register the fade-end handler, put the key on
        canvas B and fade it in. */
    method ChangeOn(path: string, display: string) returns (c: Change)
      modifies this
      ensures c == ChangeOutcome(old(backgrounds), path, display)
      ensures State() == ChangedOn(old(State()), path, display)
    {
      if display !in backgrounds {
        return Threw;
      }
      var b := backgrounds[display];
      var key := path;
      if ToLowerAscii(GetExtension(path)) in VideoExtensions {
        key := VideoKeyPrefix + path;
        loads := loads + [Load(display, key, path)];
      }
      OnlyEmptyPathHasNoKey(path);
      if key == "" {
        return NoKey;
      }
      b := b.(pending := Some(key));
      b := b.(textureB := Some(key));
      b := b.(animB := FadeIn);
      backgrounds := backgrounds[display := b];
      return Changed(key);
    }

    /** `changeTo(path, '*')`: the change on every listed display in turn,
        ending at the first that throws. Returns whether one threw. A
        display named '*' would recurse without end, so none is. */
    method ChangeEverywhere(path: string, displays: seq<string>) returns (threw: bool)
      requires forall j :: 0 <= j < |displays| ==> displays[j] != "*"
      modifies this
      ensures threw <==> Reached(displays, old(backgrounds)) < |displays|
      ensures State() == FanOut(old(State()), path, displays)
    {
      var i := 0;
      while i < |displays|
        invariant 0 <= i <= Reached(displays, old(backgrounds))
        invariant forall d :: d in backgrounds <==> d in old(backgrounds)
        invariant FanOut(State(), path, displays[i..]) == FanOut(old(State()), path, displays)
      {
        ReachedIsFirstMissing(displays, old(backgrounds), i);
        assert displays[i..][1..] == displays[i + 1..];
        var c := ChangeOn(path, displays[i]);
        if c.Threw? {
          return true;
        }
        i := i + 1;
      }
      return false;
    }

    /** `changeTo(path, display)`, the wildcard included. */
    method ChangeTo(path: string, display: string, displays: seq<string>) returns (threw: bool)
      requires forall j :: 0 <= j < |displays| ==> displays[j] != "*"
      modifies this
      ensures display != "*" ==> threw == (display !in old(backgrounds)) && State() == ChangedOn(old(State()), path, display)
      ensures display == "*" ==> (threw <==> Reached(displays, old(backgrounds)) < |displays|) &&
                                 State() == FanOut(old(State()), path, displays)
    {
      if display == "*" {
        threw := ChangeEverywhere(path, displays);
        return;
      }
      var c := ChangeOn(path, display);
      threw := c.Threw?;
    }

    /** The end of canvas B's fade-in on a display: the handler the last
        change registered runs. */
    method FadeEnd(display: string)
      requires display in backgrounds
      modifies this
      ensures backgrounds == old(backgrounds)[display := FadeEnded(old(backgrounds)[display])]
      ensures loads == old(loads)
    {
      var b := backgrounds[display];
      if b.pending.Some? {
        var key := b.pending.value;
        b := b.(current := Some(key));
        b := b.(textureA := Some(key));
        b := b.(animB := Undefined, animA := Shown);
        backgrounds := backgrounds[display := b];
      }
    }
  }

  /** Where the fan-out stands at step i: every display before i has a
      background; the one at i has one exactly when i is not the stopping
      point. */
  lemma ReachedIsFirstMissing(displays: seq<string>, backgrounds: map<string, Background>, i: nat)
    requires i <= Reached(displays, backgrounds) && i < |displays|
    ensures displays[i] in backgrounds <==> i < Reached(displays, backgrounds)
  {
  }

  // ---------------------------------------------------------------------
  // Properties
  // ---------------------------------------------------------------------

  /** The extension of "name.ext" is ext whenever ext has no dot, however
      many dots the name holds. */
  lemma ExtensionOfDottedName(name: string, ext: string)
    requires '.' !in ext
    ensures GetExtension(name + "." + ext) == ext
  {
    var f := name + "." + ext;
    assert f[|name|] == '.';
    var r := LastIndexOf(f, '.');
    assert forall j :: r.value < j < |f| ==> f[j] != '.' by {
      assert forall j :: r.value < j < |f| ==> f[j] == f[r.value + 1..][j - r.value - 1];
    }
    assert forall j :: |name| < j < |f| ==> f[j] != '.' by {
      assert forall j :: |name| < j < |f| ==> f[j] == ext[j - |name| - 1];
    }
    assert r.value == |name|;
    assert f[|name| + 1..] == ext;
  }

  /** Whatever precedes a name with a dot does not change its extension. */
  lemma ExtensionOfSuffix(prefix: string, name: string)
    requires '.' in name
    ensures GetExtension(prefix + name) == GetExtension(name)
  {
    var i := LastIndexOf(name, '.').value;
    var base, e := name[..i], name[i + 1..];
    assert name == base + "." + e;
    ExtensionOfDottedName(base, e);
    assert prefix + name == (prefix + base) + "." + e;
    ExtensionOfDottedName(prefix + base, e);
  }

  /** A file is a video exactly when its extension, lower-cased, is one
      of the video extensions: the name before the last dot plays no part,
      and neither does the case of the extension's letters. */
  lemma VideoByExtension(name: string, ext: string, other: string)
    requires '.' !in ext && '.' !in other && ToLowerAscii(ext) == ToLowerAscii(other)
    ensures IsVideo(name + "." + ext) <==> ToLowerAscii(ext) in VideoExtensions
    ensures IsVideo(name + "." + ext) <==> IsVideo(name + "." + other)
  {
    ExtensionOfDottedName(name, ext);
    ExtensionOfDottedName(name, other);
  }

  /** "clip.MP4" is a video like "clip.mp4". */
  lemma VideoTestIgnoresCase()
    ensures IsVideo("clip" + "." + "MP4")
  {
    assert ToLowerAscii("MP4") == "mp4";
    VideoByExtension("clip", "MP4", "MP4");
  }

  /** A change is skipped exactly for the empty path. */
  lemma OnlyEmptyPathHasNoKey(path: string)
    ensures AssetKey(path) == "" <==> path == ""
  {
    if path == "" {
      assert GetExtension(path) == "";
      assert ToLowerAscii("") == "";
    } else {
      assert |AssetKey(path)| > 0;
    }
  }

  /** A video's path has a dot, and putting the video key prefix before
      it keeps it a video. */
  lemma VideoKeyIsVideo(p: string)
    requires IsVideo(p)
    ensures IsVideo(VideoKeyPrefix + p)
  {
    assert ToLowerAscii("") == "";
    assert GetExtension(p) != "";
    ExtensionOfSuffix(VideoKeyPrefix, p);
  }

  /** Different paths never share an asset key, even where an image path
      spells out a video key: a video's key is itself a video's name. */
  lemma AssetKeysAreDistinct(p: string, q: string)
    requires AssetKey(p) == AssetKey(q)
    ensures p == q
  {
    if IsVideo(p) {
      VideoKeyIsVideo(p);
    }
    if IsVideo(q) {
      VideoKeyIsVideo(q);
    }
    if IsVideo(p) && IsVideo(q) {
      assert p == (VideoKeyPrefix + p)[|VideoKeyPrefix|..];
      assert q == (VideoKeyPrefix + q)[|VideoKeyPrefix|..];
    }
  }

  /** A change only touches canvas B; once the fade ends, the key is the
      current wallpaper on both canvases. When two changes come before the
      fade ends, the later one wins. `active` is never written. */
  lemma FadeInstallsLatestKey(b: Background, k1: string, k2: string)
    ensures FadeStarted(b, k1).current == b.current && FadeStarted(b, k1).textureA == b.textureA
    ensures var e := FadeEnded(FadeStarted(b, k1));
      e.current == Some(k1) && e.textureA == Some(k1) && e.textureB == Some(k1) && e.animA == Shown
    ensures FadeEnded(FadeStarted(FadeStarted(b, k1), k2)).current == Some(k2)
    ensures FadeEnded(FadeStarted(b, k1)).active == b.active
  {
  }

  /** The load requests the fan-out over ds makes for a video: one per
      display, in order, all for the same key. */
  function LoadsFor(ds: seq<string>, key: string, path: string): (r: seq<Load>)
    ensures |r| == |ds|
    ensures forall j :: 0 <= j < |ds| ==> r[j].display == ds[j] && r[j].key == key && r[j].path == path
  {
    seq(|ds|, j requires 0 <= j < |ds| => Load(ds[j], key, path))
  }

  /** How far the fan-out gets depends only on which displays have a
      background. */
  lemma {:induction false} ReachedDependsOnKeys(ds: seq<string>, b1: map<string, Background>, b2: map<string, Background>)
    requires b1.Keys == b2.Keys
    ensures Reached(ds, b1) == Reached(ds, b2)
    decreases |ds|
  {
    if ds != [] && ds[0] in b1 {
      ReachedDependsOnKeys(ds[1..], b1, b2);
    }
  }

  /** One step of the fan-out: the displays stay the same, and so does
      how far the rest of the fan-out gets. */
  lemma FanOutStep(s: WallState, path: string, ds: seq<string>)
    requires ds != [] && ds[0] in s.backgrounds
    ensures ChangedOn(s, path, ds[0]).backgrounds.Keys == s.backgrounds.Keys
    ensures Reached(ds, s.backgrounds) == 1 + Reached(ds[1..], ChangedOn(s, path, ds[0]).backgrounds)
  {
    ReachedDependsOnKeys(ds[1..], s.backgrounds, ChangedOn(s, path, ds[0]).backgrounds);
  }

  /** The wildcard change leaves the set of displays as it is. */
  lemma {:induction false} FanOutKeepsDisplays(s: WallState, path: string, ds: seq<string>)
    ensures FanOut(s, path, ds).backgrounds.Keys == s.backgrounds.Keys
    decreases |ds|
  {
    if ds != [] && ds[0] in s.backgrounds {
      FanOutStep(s, path, ds);
      FanOutKeepsDisplays(ChangedOn(s, path, ds[0]), path, ds[1..]);
    }
  }

  /** Each display before the stopping point gets the fade to the path's
      key (once, even when it is listed twice); every other display is
      untouched. An empty path changes nothing. */
  lemma {:induction false} FanOutBackgrounds(s: WallState, path: string, ds: seq<string>, d: string)
    requires d in s.backgrounds
    ensures d in FanOut(s, path, ds).backgrounds
    ensures var n := Reached(ds, s.backgrounds);
      FanOut(s, path, ds).backgrounds[d] ==
        if d in ds[..n] && path != "" then FadeStarted(s.backgrounds[d], AssetKey(path)) else s.backgrounds[d]
    decreases |ds|
  {
    FanOutKeepsDisplays(s, path, ds);
    if ds == [] || ds[0] !in s.backgrounds {
      assert ds[..0] == [];
    } else {
      var s' := ChangedOn(s, path, ds[0]);
      OnlyEmptyPathHasNoKey(path);
      FanOutStep(s, path, ds);
      FanOutBackgrounds(s', path, ds[1..], d);
      var rest := PrefixAfterFirst(ds, Reached(ds, s.backgrounds));
    }
  }

  /** One change appends a load request exactly when the path is a video
      and the display has a background. */
  lemma ChangedOnLoads(s: WallState, path: string, d: string)
    ensures ChangedOn(s, path, d).loads ==
      s.loads + if IsVideo(path) && d in s.backgrounds then [Load(d, AssetKey(path), path)] else []
  {
    OnlyEmptyPathHasNoKey(path);
    if IsVideo(path) {
      assert path != "" by {
        assert GetExtension("") == "" && ToLowerAscii("") == "";
      }
    }
  }

  /** For a video, one load request per reached display is appended, in
      the order the displays are listed; nothing else is loaded. */
  lemma {:induction false} FanOutLoads(s: WallState, path: string, ds: seq<string>)
    ensures var n := Reached(ds, s.backgrounds);
      FanOut(s, path, ds).loads == s.loads + if IsVideo(path) then LoadsFor(ds[..n], AssetKey(path), path) else []
    decreases |ds|
  {
    var video, key := IsVideo(path), AssetKey(path);
    if ds == [] || ds[0] !in s.backgrounds {
      assert ds[..0] == [];
      assert LoadsFor([], key, path) == [];
    } else {
      var s' := ChangedOn(s, path, ds[0]);
      ChangedOnLoads(s, path, ds[0]);
      FanOutStep(s, path, ds);
      FanOutLoads(s', path, ds[1..]);
      var rest := PrefixAfterFirst(ds, Reached(ds, s.backgrounds));
      LoadsForCons(ds[0], rest, key, path);
    }
  }

  /** The first n displays are the first one and the n - 1 after it. */
  lemma PrefixAfterFirst(ds: seq<string>, n: nat) returns (rest: seq<string>)
    requires 1 <= n <= |ds|
    ensures rest == ds[1..][..n - 1] && ds[..n] == [ds[0]] + rest
  {
    rest := ds[1..][..n - 1];
  }

  lemma LoadsForCons(d: string, ds: seq<string>, key: string, path: string)
    ensures LoadsFor([d] + ds, key, path) == [Load(d, key, path)] + LoadsFor(ds, key, path)
  {
    assert forall j :: 1 <= j <= |ds| ==> ([d] + ds)[j] == ds[j - 1];
  }

  /** The fan-out gives every display it reaches the same key, whatever
      the display's name. */
  lemma SameKeyEverywhere(path: string, d1: string, d2: string, backgrounds: map<string, Background>)
    requires d1 in backgrounds && d2 in backgrounds
    ensures ChangeOutcome(backgrounds, path, d1) == ChangeOutcome(backgrounds, path, d2)
  {
  }
}
