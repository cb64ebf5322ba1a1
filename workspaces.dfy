/** The Hyprland workspace indicator of hypr/workspaces.js: one display
    window per monitor, holding one cell per workspace. The cell of the
    focused workspace shows a pulsing top line, urgent cells blink and
    bounce, and a display window slides in when the focus changes and slides
    out again two seconds later.

    Hyprland's replies (`Hypr.workspaces()`, `Hypr.json('clients')`) are
    parameters; the two-second timer is the flag `hidePending`, whose
    expiry is the method `HideTimerFires`. */
module Workspaces {
  import opened Common

  /** A workspace as Hyprland lists it. */
  datatype Workspace = Workspace(id: int, name: string, monitor: string)

  /** A client (window) as Hyprland lists it. */
  datatype Client = Client(address: string, workspaceId: int)

  /** The key `buildWorkspaces` and the urgent handler file a cell under:
      the workspace id, as an object key is, in decimal text. */
  function IdKey(ws: Workspace): string
  {
    IntToString(ws.id)
  }

  // ---------------------------------------------------------------------
  // One cell
  // ---------------------------------------------------------------------

  datatype TopLineAnim = NoAnim | FocusPulse | UrgentBlink

  /** A cell's state: the urgency flag, whether `createUI` has built its
      elements and whether they were destroyed since, whether the top line
      is enabled, whether the box runs its urgent bounce, and the top line's
      running animation. */
  datatype CellState = CellState(
    isUrgent: bool,
    hasUI: bool,
    destroyed: bool,
    topLineEnabled: bool,
    bouncing: bool,
    topLineAnim: TopLineAnim)

  const NewCell: CellState := CellState(false, false, false, false, false, NoAnim)

  /** `focus(enabled)`: nothing before `createUI`; else the top line is on
      while focused or urgent, and focusing clears the urgency, stops the
      bounce and starts the focus pulse. */
  function Focused(s: CellState, enabled: bool): (t: CellState)
    ensures !s.hasUI ==> t == s
    ensures s.hasUI ==> t.topLineEnabled == (enabled || s.isUrgent)
    ensures s.hasUI && enabled ==> !t.isUrgent && !t.bouncing && t.topLineAnim == FocusPulse
    ensures !enabled ==> t == s.(topLineEnabled := t.topLineEnabled)
  {
    if !s.hasUI then s
    else
      var t := s.(topLineEnabled := enabled || s.isUrgent);
      if enabled then t.(isUrgent := false, bouncing := false, topLineAnim := FocusPulse) else t
  }

  /** `createUI()`: fresh elements, then `focus(false)`. */
  function WithUI(s: CellState): (t: CellState)
    ensures t.hasUI && !t.destroyed && t.isUrgent == s.isUrgent && t.topLineEnabled == s.isUrgent
  {
    Focused(s.(hasUI := true, destroyed := false, bouncing := false, topLineAnim := NoAnim, topLineEnabled := true), false)
  }

  /** `destroy()`: the box element is destroyed if it was built. */
  function Destroyed(s: CellState): (t: CellState)
    ensures t.destroyed == (s.destroyed || s.hasUI)
  {
    if !s.hasUI then s else s.(destroyed := true)
  }

  /** `setUrgent()`. */
  function Urgent(s: CellState): (t: CellState)
    ensures t.isUrgent && t.topLineEnabled
  {
    s.(isUrgent := true, topLineEnabled := true, bouncing := true, topLineAnim := UrgentBlink)
  }

  class WorkspaceCell {
    const workspace: Workspace
    var isUrgent: bool
    var hasUI: bool
    var destroyed: bool
    var topLineEnabled: bool
    var bouncing: bool
    var topLineAnim: TopLineAnim

    ghost function View(): CellState
      reads this
    {
      CellState(isUrgent, hasUI, destroyed, topLineEnabled, bouncing, topLineAnim)
    }

    constructor(workspace: Workspace)
      ensures this.workspace == workspace && View() == NewCell
    {
      this.workspace := workspace;
      isUrgent := false;
      hasUI := false;
      destroyed := false;
      topLineEnabled := false;
      bouncing := false;
      topLineAnim := NoAnim;
    }

    method CreateUI()
      modifies this
      ensures View() == WithUI(old(View()))
    {
      hasUI := true;
      destroyed := false;
      bouncing := false;
      topLineAnim := NoAnim;
      topLineEnabled := true;
      Focus(false);
    }

    method Focus(enabled: bool)
      modifies this
      ensures View() == Focused(old(View()), enabled)
    {
      if !hasUI {
        return;
      }
      topLineEnabled := enabled || isUrgent;
      if enabled {
        isUrgent := false;
        bouncing := false;
        topLineAnim := FocusPulse;
      }
    }

    method Destroy()
      modifies this
      ensures View() == Destroyed(old(View()))
    {
      if !hasUI {
        return;
      }
      destroyed := true;
    }

    method SetUrgent()
      modifies this
      ensures View() == Urgent(old(View()))
    {
      isUrgent := true;
      topLineEnabled := true;
      bouncing := true;
      topLineAnim := UrgentBlink;
    }
  }

  // ---------------------------------------------------------------------
  // One display window
  // ---------------------------------------------------------------------

  datatype WindowAnim = SlideIn | SlideOut

  /** A display window's state: visibility, whether the auto-hide timer is
      pending, whether `createUI` built it, and the slide animations it has
      started, oldest first. */
  datatype WindowState = WindowState(visible: bool, hidePending: bool, hasUI: bool, anims: seq<WindowAnim>)

  const NewWindow: WindowState := WindowState(true, false, false, [])

  /** `show(locked)`: slide in only when hidden; cancel the pending hide,
      and arm a new one unless locked. */
  function Shown(s: WindowState, locked: bool): (t: WindowState)
    ensures t.visible && t.hidePending == !locked && t.hasUI == s.hasUI
    ensures t.anims == s.anims + (if s.visible then [] else [SlideIn])
  {
    WindowState(true, !locked, s.hasUI, s.anims + (if s.visible then [] else [SlideIn]))
  }

  /** `hide()`: slide out only when visible; cancel the pending hide. */
  function Hidden(s: WindowState): (t: WindowState)
    ensures !t.visible && !t.hidePending && t.hasUI == s.hasUI
    ensures t.anims == s.anims + (if s.visible then [SlideOut] else [])
  {
    WindowState(false, false, s.hasUI, s.anims + (if s.visible then [SlideOut] else []))
  }

  class DisplayWindow {
    const monitor: string
    var visible: bool
    var hidePending: bool
    var hasUI: bool
    var anims: seq<WindowAnim>

    ghost function View(): WindowState
      reads this
    {
      WindowState(visible, hidePending, hasUI, anims)
    }

    constructor(monitor: string)
      ensures this.monitor == monitor && View() == NewWindow
    {
      this.monitor := monitor;
      visible := true;
      hidePending := false;
      hasUI := false;
      anims := [];
    }

    method CreateUI()
      modifies this
      ensures View() == old(View()).(hasUI := true)
    {
      hasUI := true;
    }

    method Show(locked: bool)
      modifies this
      ensures View() == Shown(old(View()), locked)
    {
      if !visible {
        anims := anims + [SlideIn];
      }
      visible := true;
      hidePending := !locked;
    }

    method Hide()
      modifies this
      ensures View() == Hidden(old(View()))
    {
      if visible {
        anims := anims + [SlideOut];
      }
      visible := false;
      hidePending := false;
    }

    /** The auto-hide timer expiring: it runs `hide()` unless it was
        cleared. */
    method HideTimerFires()
      modifies this
      ensures View() == if old(hidePending) then Hidden(old(View())) else old(View())
    {
      if hidePending {
        Hide();
      }
    }
  }

  // ---------------------------------------------------------------------
  // The registry
  // ---------------------------------------------------------------------

  /** `workspaces.find(i => i.name == name)`. */
  function FindByName(workspaces: seq<Workspace>, name: string): (r: Option<Workspace>)
    ensures r.Some? ==> r.value in workspaces && r.value.name == name
    ensures r.None? <==> forall k :: 0 <= k < |workspaces| ==> workspaces[k].name != name
  {
    if workspaces == [] then None
    else if workspaces[0].name == name then Some(workspaces[0])
    else
      assert forall k :: 1 <= k < |workspaces| ==> workspaces[k] == workspaces[1..][k - 1];
      FindByName(workspaces[1..], name)
  }

  /** `s.includes(t)`. */
  predicate Includes(s: string, t: string)
    decreases |s|
  {
    StartsWith(s, t) || (s != [] && Includes(s[1..], t))
  }

  /** `clients.find(i => i.address.includes(address))`. */
  function FindClient(clients: seq<Client>, address: string): (r: Option<Client>)
    ensures r.Some? ==> r.value in clients && Includes(r.value.address, address)
    ensures r.None? <==> forall k :: 0 <= k < |clients| ==> !Includes(clients[k].address, address)
    ensures r.Some? ==> exists k :: (0 <= k < |clients| && clients[k] == r.value &&
      forall j :: 0 <= j < k ==> !Includes(clients[j].address, address))
  {
    if clients == [] then None
    else if Includes(clients[0].address, address) then Some(clients[0])
    else
      assert forall k :: 1 <= k < |clients| ==> clients[k] == clients[1..][k - 1];
      var r := FindClient(clients[1..], address);
      if r.Some? then
        var k :| 0 <= k < |clients[1..]| && clients[1..][k] == r.value &&
          forall j :: 0 <= j < k ==> !Includes(clients[1..][j].address, address);
        assert clients[k + 1] == r.value;
        r
      else r
  }

  /** The monitors of a workspace list. */
  function Monitors(workspaces: seq<Workspace>): set<string>
  {
    if workspaces == [] then {}
    else Monitors(workspaces[..|workspaces| - 1]) + {workspaces[|workspaces| - 1].monitor}
  }

  /** The id keys of a workspace list. */
  function IdKeys(workspaces: seq<Workspace>): set<string>
  {
    if workspaces == [] then {}
    else IdKeys(workspaces[..|workspaces| - 1]) + {IdKey(workspaces[|workspaces| - 1])}
  }

  /** A cell as the widget files it: the workspace it shows and its
      state. */
  datatype Cell = Cell(workspace: Workspace, state: CellState)

  /** The cell `buildWorkspaces` and `createWorkspace` add for ws: built,
      on the window of its monitor. */
  function NewCellOf(ws: Workspace): Cell
  {
    Cell(ws, WithUI(NewCell))
  }

  /** The window `buildWorkspaces` adds for a new monitor: built, then
      shown with its auto-hide armed. */
  const NewShownWindow: WindowState := Shown(NewWindow.(hasUI := true), false)

  /** Whether `createWorkspace` can add a cell: the name lists a workspace
      and its monitor has a window (else reading the window throws). */
  predicate CanAdd(ws: Option<Workspace>, windows: map<string, WindowState>)
  {
    ws.Some? && ws.value.monitor in windows
  }

  /** Every cell's monitor has a display window. */
  ghost predicate CellsHaveWindows(cells: map<string, Cell>, windows: map<string, WindowState>)
  {
    forall k :: k in cells ==> cells[k].workspace.monitor in windows
  }

  /** The first loop of `switchTo`: `focus(false)` on every cell. */
  function Unfocused(cells: map<string, Cell>): map<string, Cell>
  {
    map k | k in cells :: cells[k].(state := Focused(cells[k].state, false))
  }

  /** The cells after `switchTo(name)`: all unfocused, then the named one,
      when present, focused. */
  function Switched(cells: map<string, Cell>, name: string): map<string, Cell>
  {
    var u := Unfocused(cells);
    if name in u then u[name := u[name].(state := Focused(u[name].state, true))] else u
  }

  /** The second loop of `switchTo`: `show(locked)` on every window. */
  function ShownAll(windows: map<string, WindowState>, locked: bool): map<string, WindowState>
  {
    map m | m in windows :: Shown(windows[m], locked)
  }

  /** The windows after `switchTo(name)`: all shown with auto-hide armed,
      unless the name has no cell, where the switch stops first. */
  function SwitchedWindows(cells: map<string, Cell>, windows: map<string, WindowState>, name: string): map<string, WindowState>
  {
    if name in cells then ShownAll(windows, false) else windows
  }

  /** The cells after the `buildWorkspaces` loop over workspaces: each
      workspace, in order, replaces the cell under its id key by a new one. */
  function BuiltCells(cells: map<string, Cell>, workspaces: seq<Workspace>): map<string, Cell>
  {
    if workspaces == [] then cells
    else
      var last := workspaces[|workspaces| - 1];
      BuiltCells(cells, workspaces[..|workspaces| - 1])[IdKey(last) := NewCellOf(last)]
  }

  /** The windows after the `buildWorkspaces` loop: a new shown window for
      each monitor that has none. */
  function BuiltWindows(windows: map<string, WindowState>, workspaces: seq<Workspace>): map<string, WindowState>
  {
    if workspaces == [] then windows
    else
      var before := BuiltWindows(windows, workspaces[..|workspaces| - 1]);
      var last := workspaces[|workspaces| - 1];
      if last.monitor in before then before else before[last.monitor := NewShownWindow]
  }

  /** The cells `createWorkspace(name)` leaves: a present name is switched
      to; a missing one gets a new cell first, or, where it cannot be added,
      nothing changes (the handler throws). */
  function CreatedCells(cells: map<string, Cell>, windows: map<string, WindowState>,
                        name: string, workspaces: seq<Workspace>): map<string, Cell>
  {
    if name in cells then Switched(cells, name)
    else
      var ws := FindByName(workspaces, name);
      if !CanAdd(ws, windows) then cells
      else Switched(cells[name := NewCellOf(ws.value)], name)
  }

  /** Whether `createWorkspace(name)` reaches the switch. */
  predicate CreateSwitches(cells: map<string, Cell>, windows: map<string, WindowState>,
                           name: string, workspaces: seq<Workspace>)
  {
    name in cells || CanAdd(FindByName(workspaces, name), windows)
  }

  /** The key the `urgent` handler marks: the id key of the first client
      whose address contains the given one, when it has a cell whose
      monitor has a window. */
  function UrgentKey(cells: map<string, Cell>, windows: map<string, WindowState>,
                     clients: seq<Client>, address: string): (r: Option<string>)
    ensures var c := FindClient(clients, address);
      && (r.Some? <==> c.Some? && IntToString(c.value.workspaceId) in cells &&
                       cells[IntToString(c.value.workspaceId)].workspace.monitor in windows)
      && (r.Some? ==> r.value == IntToString(c.value.workspaceId))
    ensures r.Some? ==> r.value in cells && cells[r.value].workspace.monitor in windows
  {
    match FindClient(clients, address)
    case None => None
    case Some(client) =>
      var key := IntToString(client.workspaceId);
      if key in cells && cells[key].workspace.monitor in windows then Some(key) else None
  }

  /** Deleting a key and then setting it is setting it. */
  lemma ReplacedKey(m: map<string, Cell>, k: string, v: Cell)
    ensures (m - {k})[k := v] == m[k := v]
  {
    var a, b := (m - {k})[k := v], m[k := v];
    assert a.Keys == b.Keys;
  }

  /** One more workspace of the list is one more step of the build. */
  lemma BuiltStep(cells: map<string, Cell>, windows: map<string, WindowState>, workspaces: seq<Workspace>, i: nat)
    requires i < |workspaces|
    ensures BuiltCells(cells, workspaces[..i + 1]) == BuiltCells(cells, workspaces[..i])[IdKey(workspaces[i]) := NewCellOf(workspaces[i])]
    ensures var before := BuiltWindows(windows, workspaces[..i]);
      BuiltWindows(windows, workspaces[..i + 1]) ==
        if workspaces[i].monitor in before then before else before[workspaces[i].monitor := NewShownWindow]
  {
    assert workspaces[..i + 1][..i] == workspaces[..i];
  }

  class HyprWorkspaces {
    /** `workspaceCell`, keyed by workspace name or id text. */
    var cells: map<string, Cell>
    /** `displayWindow`, keyed by monitor name. */
    var windows: map<string, WindowState>

    ghost predicate Valid()
      reads this
    {
      CellsHaveWindows(cells, windows)
    }

    /** The tables start empty (`buildWorkspaces` runs next, as
        `BuildWorkspaces`). */
    constructor()
      ensures Valid() && cells == map[] && windows == map[]
    {
      cells := map[];
      windows := map[];
    }

    /** The first loop of `switchTo`. */
    method UnfocusAll()
      requires Valid()
      modifies this
      ensures Valid()
      ensures cells == Unfocused(old(cells)) && windows == old(windows)
    {
      var todo := cells.Keys;
      while todo != {}
        invariant todo <= cells.Keys == old(cells).Keys && windows == old(windows)
        invariant forall k :: k in cells ==>
          cells[k] == if k in todo then old(cells)[k] else old(cells)[k].(state := Focused(old(cells)[k].state, false))
        decreases todo
      {
        var k :| k in todo;
        cells := cells[k := cells[k].(state := Focused(cells[k].state, false))];
        todo := todo - {k};
      }
      assert cells == Unfocused(old(cells));
    }

    /** The second loop of `switchTo`. */
    method ShowAll()
      requires Valid()
      modifies this
      ensures Valid()
      ensures windows == ShownAll(old(windows), false) && cells == old(cells)
    {
      var left := windows.Keys;
      while left != {}
        invariant left <= windows.Keys == old(windows).Keys && cells == old(cells)
        invariant forall m :: m in windows ==>
          windows[m] == if m in left then old(windows)[m] else Shown(old(windows)[m], false)
        decreases left
      {
        var m :| m in left;
        windows := windows[m := Shown(windows[m], false)];
        left := left - {m};
      }
      assert windows == ShownAll(old(windows), false);
    }

    /** `switchTo(name)`. */
    method SwitchTo(name: string)
      requires Valid()
      modifies this
      ensures Valid()
      ensures cells == Switched(old(cells), name)
      ensures windows == SwitchedWindows(old(cells), old(windows), name)
    {
      UnfocusAll();
      if name !in cells {
        return;
      }
      cells := cells[name := cells[name].(state := Focused(cells[name].state, true))];
      ShowAll();
    }

    /** `removeWorkspace(name)`: a present cell is destroyed and its key
        deleted (the destroyed cell is no longer reachable, so only the
        deletion remains). */
    method RemoveWorkspace(name: string)
      requires Valid()
      modifies this
      ensures Valid()
      ensures cells == old(cells) - {name} && windows == old(windows)
    {
      if name in cells {
        cells := cells - {name};
      }
    }

    /** `createWorkspace(name)` with `workspaces` the reply of
        `Hypr.workspaces()`. */
    method CreateWorkspace(name: string, workspaces: seq<Workspace>)
      requires Valid()
      modifies this
      ensures Valid()
      ensures cells == CreatedCells(old(cells), old(windows), name, workspaces)
      ensures windows == if CreateSwitches(old(cells), old(windows), name, workspaces)
                         then ShownAll(old(windows), false) else old(windows)
    {
      if name !in cells {
        var ws := FindByName(workspaces, name);
        if !CanAdd(ws, windows) {
          return;
        }
        cells := cells[name := NewCellOf(ws.value)];
      }
      SwitchTo(name);
    }

    /** `buildWorkspaces()` with `workspaces` the reply of
        `Hypr.workspaces()`. */
    method BuildWorkspaces(workspaces: seq<Workspace>)
      requires Valid()
      modifies this
      ensures Valid()
      ensures cells == BuiltCells(old(cells), workspaces)
      ensures windows == BuiltWindows(old(windows), workspaces)
    {
      var i := 0;
      while i < |workspaces|
        invariant 0 <= i <= |workspaces|
        invariant Valid()
        invariant cells == BuiltCells(old(cells), workspaces[..i])
        invariant windows == BuiltWindows(old(windows), workspaces[..i])
      {
        var ws := workspaces[i];
        BuiltStep(old(cells), old(windows), workspaces, i);
        ghost var cellsBefore := cells;
        if ws.monitor !in windows {
          windows := windows[ws.monitor := NewShownWindow];
        }
        if IdKey(ws) in cells {
          RemoveWorkspace(IdKey(ws));
          ReplacedKey(cellsBefore, IdKey(ws), NewCellOf(ws));
        }
        cells := cells[IdKey(ws) := NewCellOf(ws)];
        i := i + 1;
      }
      assert workspaces[..i] == workspaces;
    }

    /** The `urgent` handler, with `clients` the reply of
        `Hypr.json('clients')`: the matching cell turns urgent and its
        window is shown without auto-hide. */
    method OnUrgent(address: string, clients: seq<Client>)
      requires Valid()
      modifies this
      ensures Valid()
      ensures var key := UrgentKey(old(cells), old(windows), clients, address);
        if key.None? then cells == old(cells) && windows == old(windows)
        else
          var cell := old(cells)[key.value];
          cells == old(cells)[key.value := cell.(state := Urgent(cell.state))] &&
          windows == old(windows)[cell.workspace.monitor := Shown(old(windows)[cell.workspace.monitor], true)]
    {
      var client := FindClient(clients, address);
      if client.None? {
        return;
      }
      var key := IntToString(client.value.workspaceId);
      if key !in cells {
        return;
      }
      var monitor := cells[key].workspace.monitor;
      if monitor !in windows {
        return;
      }
      windows := windows[monitor := Shown(windows[monitor], true)];
      cells := cells[key := cells[key].(state := Urgent(cells[key].state))];
    }

    /** The `focusedmon` handler: the payload is `monitor,workspace`, and
        the focus switches to its second field. */
    method OnFocusedMon(payload: string)
      requires Valid()
      modifies this
      ensures Valid()
      ensures cells == Switched(old(cells), FocusedWorkspaceName(payload))
      ensures windows == SwitchedWindows(old(cells), old(windows), FocusedWorkspaceName(payload))
    {
      SwitchTo(FocusedWorkspaceName(payload));
    }
  }

  /** The workspace field of a `focusedmon` payload (the text 'undefined'
      when the payload has no comma). */
  function FocusedWorkspaceName(payload: string): string
  {
    match SplitField(payload, ',', 1)
    case Some(w) => w
    case None => "undefined"
  }

  // ---------------------------------------------------------------------
  // Properties
  // ---------------------------------------------------------------------

  /** After a switch the top line is lit exactly on the named cell and on
      the urgent ones; the named cell's urgency is cleared, the others keep
      theirs, and no cell is added, dropped or moved. */
  lemma SwitchLightsTargetAndUrgent(cells: map<string, Cell>, name: string)
    ensures Switched(cells, name).Keys == cells.Keys
    ensures forall k :: k in cells ==> Switched(cells, name)[k].workspace == cells[k].workspace
    ensures forall k :: k in cells && cells[k].state.hasUI ==>
      (Switched(cells, name)[k].state.topLineEnabled <==> k == name || cells[k].state.isUrgent)
    ensures forall k :: k in cells && cells[k].state.hasUI ==>
      (Switched(cells, name)[k].state.isUrgent <==> k != name && cells[k].state.isUrgent)
  {
  }

  /** The table a build leaves: every id key of the list holds a new,
      built cell of a workspace with that key; every other cell is kept;
      nothing else is added. */
  lemma {:induction false} BuiltCellsTable(cells: map<string, Cell>, workspaces: seq<Workspace>)
    ensures forall k :: k in BuiltCells(cells, workspaces) <==> k in cells || k in IdKeys(workspaces)
    ensures forall k :: k in IdKeys(workspaces) ==>
      BuiltCells(cells, workspaces)[k].state == WithUI(NewCell) && IdKey(BuiltCells(cells, workspaces)[k].workspace) == k
    ensures forall k :: k in cells && k !in IdKeys(workspaces) ==> BuiltCells(cells, workspaces)[k] == cells[k]
  {
    if workspaces != [] {
      BuiltCellsTable(cells, workspaces[..|workspaces| - 1]);
    }
  }

  /** The windows a build leaves: every monitor of the list has one, the
      windows there before are kept as they were, and each new one is
      built and shown with its auto-hide armed. */
  lemma {:induction false} BuiltWindowsTable(windows: map<string, WindowState>, workspaces: seq<Workspace>)
    ensures forall m :: m in BuiltWindows(windows, workspaces) <==> m in windows || m in Monitors(workspaces)
    ensures forall m :: m in windows ==> BuiltWindows(windows, workspaces)[m] == windows[m]
    ensures forall m :: m in BuiltWindows(windows, workspaces) && m !in windows ==>
      BuiltWindows(windows, workspaces)[m] == NewShownWindow
  {
    if workspaces != [] {
      BuiltWindowsTable(windows, workspaces[..|workspaces| - 1]);
    }
  }

  /** What a build puts under an id key of the list does not depend on
      the table it starts from. */
  lemma {:induction false} BuiltKeyIgnoresStart(a: map<string, Cell>, b: map<string, Cell>, workspaces: seq<Workspace>, k: string)
    requires k in IdKeys(workspaces)
    ensures k in BuiltCells(a, workspaces) && k in BuiltCells(b, workspaces)
    ensures BuiltCells(a, workspaces)[k] == BuiltCells(b, workspaces)[k]
  {
    var init := workspaces[..|workspaces| - 1];
    if k != IdKey(workspaces[|workspaces| - 1]) {
      BuiltKeyIgnoresStart(a, b, init, k);
    }
  }

  /** Building twice from the same list gives what building once gives. */
  lemma BuildIsIdempotent(cells: map<string, Cell>, windows: map<string, WindowState>, workspaces: seq<Workspace>)
    ensures BuiltCells(BuiltCells(cells, workspaces), workspaces) == BuiltCells(cells, workspaces)
    ensures BuiltWindows(BuiltWindows(windows, workspaces), workspaces) == BuiltWindows(windows, workspaces)
  {
    var once := BuiltCells(cells, workspaces);
    var twice := BuiltCells(once, workspaces);
    BuiltCellsTable(cells, workspaces);
    BuiltCellsTable(once, workspaces);
    forall k | k in IdKeys(workspaces)
      ensures twice[k] == once[k]
    {
      BuiltKeyIgnoresStart(once, cells, workspaces, k);
    }
    assert twice.Keys == once.Keys;
    var w1 := BuiltWindows(windows, workspaces);
    var w2 := BuiltWindows(w1, workspaces);
    BuiltWindowsTable(windows, workspaces);
    BuiltWindowsTable(w1, workspaces);
    assert w2.Keys == w1.Keys;
  }

  /** `createWorkspace` switches to the name whenever it has a cell or can
      add one, keeping an existing cell rather than rebuilding it, and
      changes no cell otherwise. */
  lemma CreateFocusesName(cells: map<string, Cell>, windows: map<string, WindowState>,
                          name: string, workspaces: seq<Workspace>)
    ensures CreateSwitches(cells, windows, name, workspaces) ==>
      name in CreatedCells(cells, windows, name, workspaces) &&
      CreatedCells(cells, windows, name, workspaces).Keys == cells.Keys + {name}
    ensures name in cells ==> CreatedCells(cells, windows, name, workspaces)[name].workspace == cells[name].workspace
    ensures name !in cells && CreateSwitches(cells, windows, name, workspaces) ==>
      CreatedCells(cells, windows, name, workspaces)[name] == Cell(FindByName(workspaces, name).value, Focused(WithUI(NewCell), true)) &&
      FindByName(workspaces, name).value.name == name
    ensures !CreateSwitches(cells, windows, name, workspaces) ==> CreatedCells(cells, windows, name, workspaces) == cells
  {
  }

  /** Unfocusing then focusing a cell is focusing it: the switch leaves the
      target focused, its line on and its urgency cleared, while every
      other cell keeps its line only if it is urgent. */
  lemma SwitchFocusesOne(s: CellState)
    requires s.hasUI
    ensures Focused(Focused(s, false), true) == Focused(s, true)
    ensures Focused(s, true).topLineEnabled && !Focused(s, true).isUrgent
    ensures Focused(s, false).topLineEnabled == s.isUrgent && Focused(s, false).isUrgent == s.isUrgent
  {
  }

  /** An urgent cell keeps its line lit when another workspace takes the
      focus, and loses its urgency when it takes the focus itself. */
  lemma UrgencyLastsUntilFocused(s: CellState)
    requires s.hasUI
    ensures Focused(Urgent(s), false).topLineEnabled && Focused(Urgent(s), false).isUrgent
    ensures !Focused(Urgent(s), true).isUrgent && Focused(Urgent(s), true).topLineAnim == FocusPulse
  {
  }

  /** A window's animations so far alternate, begin with a slide-out (a
      window starts visible) and end with a slide-in exactly when it is
      visible. */
  ghost predicate AnimsConsistent(s: WindowState)
  {
    (forall i :: 0 <= i < |s.anims| - 1 ==> s.anims[i] != s.anims[i + 1]) &&
    (s.anims == [] ==> s.visible) &&
    (s.anims != [] ==> s.anims[0] == SlideOut && (s.anims[|s.anims| - 1] == SlideIn <==> s.visible))
  }

  /** Showing and hiding keep the animations consistent: a window never
      slides in twice, or out twice, in a row. */
  lemma ShowHideAlternate(s: WindowState, locked: bool)
    requires AnimsConsistent(s)
    ensures AnimsConsistent(Shown(s, locked))
    ensures AnimsConsistent(Hidden(s))
  {
    var a := Shown(s, locked).anims;
    if !s.visible {
      assert s.anims != [];
      assert a == s.anims + [SlideIn];
      assert forall i :: 0 <= i < |a| - 1 ==> a[i] != a[i + 1] by {
        forall i | 0 <= i < |a| - 1
          ensures a[i] != a[i + 1]
        {
          if i < |s.anims| - 1 {
            assert a[i] == s.anims[i] && a[i + 1] == s.anims[i + 1];
          } else {
            assert a[i] == s.anims[|s.anims| - 1] == SlideOut;
          }
        }
      }
    }
    var b := Hidden(s).anims;
    if s.visible {
      assert b == s.anims + [SlideOut];
      assert forall i :: 0 <= i < |b| - 1 ==> b[i] != b[i + 1] by {
        forall i | 0 <= i < |b| - 1
          ensures b[i] != b[i + 1]
        {
          if i < |s.anims| - 1 {
            assert b[i] == s.anims[i] && b[i + 1] == s.anims[i + 1];
          } else {
            assert b[i] == s.anims[|s.anims| - 1] == SlideIn;
          }
        }
      }
    }
  }

  /** Showing twice slides in at most once, and a locked show leaves no
      hide pending while an unlocked one always arms it. */
  lemma ShowIsIdempotent(s: WindowState, l1: bool, l2: bool)
    ensures Shown(Shown(s, l1), l2).anims == Shown(s, l1).anims
    ensures !Shown(s, true).hidePending && Shown(s, false).hidePending
  {
  }

  /** Cells created by name and cells created by id share a key only when
      the name is the id's decimal text: a named workspace's cell made by
      `createWorkspace` is not the one the urgent handler looks up. */
  lemma KeysAgreeOnlyForNumericNames(ws: Workspace)
    ensures ws.name == IdKey(ws) ==> FindByName([ws], IdKey(ws)) == Some(ws)
    ensures ws.name != IdKey(ws) ==> FindByName([ws], IdKey(ws)).None?
  {
  }

  /** The `focusedmon` payload's second field is the workspace name. */
  lemma FocusedMonPayload(monitor: string, name: string)
    requires ',' !in monitor && ',' !in name
    ensures FocusedWorkspaceName(monitor + "," + name) == name
  {
    SplitFirstField(monitor, ',', name);
    SplitNoSeparator(name, ',');
    assert monitor + "," + name == monitor + [','] + name;
  }
}
