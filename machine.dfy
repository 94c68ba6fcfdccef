/** The menu's per-frame behaviour as functions on a snapshot of its state:
    loading a folder, running a row's action, the input tick and the lazy
    load in the drawing pass. The class DebugMenu.Menu is proved to follow
    these functions step by step. */
module Machine {
  import opened Wrappers
  import opened Render
  import opened Items
  import opened ItemRegistry
  import opened Navigator

  datatype Notification = Shown | Hidden

  /** The exceptions the tick can raise; the changes made before the
      exception are kept and the rest of the tick is skipped. */
  datatype Fault =
    | NullItems              // the row array has not been loaded yet
    | IndexOutOfRange(index: int)  // the selection lies outside the row array

  /** Which input actions were pressed this frame. */
  datatype Edges = Edges(toggle: bool, down: bool, up: bool, enter: bool, left: bool, right: bool)

  datatype Edge = Down | Up | Press(slot: Slot)

  /** The menu's fields, the notifications it has fired, the host calls its
      items have made, and the two host globals the sample items change.
      currentItems is None until the first load. */
  datatype MenuState = MenuState(
    visible: bool,
    currentPath: string,
    menuName: string,
    selected: int,
    currentItems: Option<seq<Item>>,
    subFolders: seq<string>,
    notifications: seq<Notification>,
    hostCalls: seq<nat>,
    frameRate: Int32,
    vSyncCount: Int32)

  datatype TickResult = TickResult(state: MenuState, fault: Option<Fault>)

  function Done(st: MenuState): TickResult
  {
    TickResult(st, None)
  }

  /** The menu as created: hidden, nothing loaded, selection 0. */
  function Initial(frameRate: Int32, vSyncCount: Int32): MenuState
  {
    MenuState(false, "", "", 0, None, [], [], [], frameRate, vSyncCount)
  }

  /** LoadMenu(path). */
  function Load(reg: Registry, st: MenuState, path: string): MenuState
  {
    st.(currentPath := path,
        subFolders := SubFolders(Keys(reg), path),
        currentItems := Some(Rows(reg, path)),
        menuName := Title(path),
        selected := 0)
  }

  function RunOp(st: MenuState, op: Op): MenuState
  {
    match op
    case FrameRate(limitOp) => st.(frameRate := ApplyLimitOp(st.frameRate, limitOp))
    case VSyncToggle => st.(vSyncCount := ToggleVSync(st.vSyncCount))
    case Host(id) => st.(hostCalls := st.hostCalls + [id])
  }

  /** `action?.Invoke()`: nothing for an absent action. */
  function Perform(reg: Registry, st: MenuState, action: Action): MenuState
  {
    match action
    case NoAction => st
    case Navigate(target) => Load(reg, st, target)
    case Invoke(op) => RunOp(st, op)
  }

  function ToggleVisibility(st: MenuState): MenuState
  {
    st.(visible := !st.visible,
        selected := 0,
        notifications := st.notifications + [if st.visible then Hidden else Shown])
  }

  /** `selected++` then the wrap test, which reads the row count. */
  function MoveDown(st: MenuState): TickResult
  {
    var s := st.selected + 1;
    match st.currentItems
    case None => TickResult(st.(selected := s), Some(NullItems))
    case Some(rows) => Done(st.(selected := if s >= |rows| then 0 else s))
  }

  /** `selected--` then the wrap test, which reads the row count only when
      the selection went below 0. */
  function MoveUp(st: MenuState): TickResult
  {
    var s := st.selected - 1;
    if s >= 0 then Done(st.(selected := s))
    else
      match st.currentItems
      case None => TickResult(st.(selected := s), Some(NullItems))
      case Some(rows) => Done(st.(selected := |rows| - 1))
  }

  /** `currentItems[selected].OnX?.Invoke()`. */
  function Activate(reg: Registry, st: MenuState, slot: Slot): TickResult
  {
    match st.currentItems
    case None => TickResult(st, Some(NullItems))
    case Some(rows) =>
      if 0 <= st.selected < |rows| then Done(Perform(reg, st, ActionOf(rows[st.selected], slot)))
      else TickResult(st, Some(IndexOutOfRange(st.selected)))
  }

  function ApplyEdge(reg: Registry, st: MenuState, edge: Edge): TickResult
  {
    match edge
    case Down => MoveDown(st)
    case Up => MoveUp(st)
    case Press(slot) => Activate(reg, st, slot)
  }

  /** One step of the tick: skipped after an exception or when not pressed. */
  function AfterEdge(reg: Registry, r: TickResult, pressed: bool, edge: Edge): TickResult
  {
    if r.fault.Some? || !pressed then r else ApplyEdge(reg, r.state, edge)
  }

  /** Update(): the toggle first, then, while visible, down, up, enter,
      left and right, each acting on the state the previous one left. */
  function Tick(reg: Registry, st: MenuState, e: Edges): TickResult
  {
    var s1 := if e.toggle then ToggleVisibility(st) else st;
    if !s1.visible then Done(s1)
    else
      var r1 := AfterEdge(reg, Done(s1), e.down, Down);
      var r2 := AfterEdge(reg, r1, e.up, Up);
      var r3 := AfterEdge(reg, r2, e.enter, Press(Validate));
      var r4 := AfterEdge(reg, r3, e.left, Press(Left));
      AfterEdge(reg, r4, e.right, Press(Right))
  }

  /** The part of OnGUI() that changes state: the lazy first load. */
  function Draw(reg: Registry, st: MenuState): MenuState
  {
    if st.visible && st.currentItems.None? then Load(reg, st, "") else st
  }

  /** The same edges on n frames in a row (faults do not stop later frames). */
  function Repeat(reg: Registry, st: MenuState, e: Edges, n: nat): MenuState
  {
    if n == 0 then st else Tick(reg, Repeat(reg, st, e, n - 1), e).state
  }

  const ToggleOnly: Edges := Edges(true, false, false, false, false, false)
  const DownOnly: Edges := Edges(false, true, false, false, false, false)
  const UpOnly: Edges := Edges(false, false, true, false, false, false)

  function PressOnly(slot: Slot): Edges
  {
    match slot
    case Validate => Edges(false, false, false, true, false, false)
    case Left => Edges(false, false, false, false, true, false)
    case Right => Edges(false, false, false, false, false, true)
  }

  /** The selection invariant: within the rows when there are rows, and
      0 or -1 (after an up) when the folder is empty. */
  predicate SelectionInRange(st: MenuState)
  {
    match st.currentItems
    case None => true
    case Some(rows) => if |rows| > 0 then 0 <= st.selected < |rows| else -1 <= st.selected <= 0
  }

  // ---------------------------------------------------------------------
  // Loading

  /** Loading sets the path, title and selection and shows the rows the
      registry gives for that path, whatever came before; so loading the
      same path again changes nothing. */
  lemma LoadDependsOnPathOnly(reg: Registry, st: MenuState, other: MenuState, path: string)
    ensures Load(reg, st, path).currentPath == path && Load(reg, st, path).selected == 0
    ensures Load(reg, st, path).currentItems == Load(reg, other, path).currentItems
    ensures Load(reg, st, path).menuName == Load(reg, other, path).menuName
    ensures Load(reg, Load(reg, st, path), path) == Load(reg, st, path)
    ensures SelectionInRange(Load(reg, st, path))
    ensures Load(reg, st, path).visible == st.visible && Load(reg, st, path).notifications == st.notifications
  {
  }

  // ---------------------------------------------------------------------
  // The tick

  lemma AfterEdgeKeeps(reg: Registry, r: TickResult, pressed: bool, edge: Edge)
    ensures AfterEdge(reg, r, pressed, edge).state.visible == r.state.visible
    ensures AfterEdge(reg, r, pressed, edge).state.notifications == r.state.notifications
    ensures SelectionInRange(r.state) ==> SelectionInRange(AfterEdge(reg, r, pressed, edge).state)
  {
  }

  /** A toggle edge flips visibility, and exactly one notification is fired
      per toggle, "shown" when the menu appears and "hidden" when it goes.
      Without a toggle no notification is fired. */
  lemma TickNotifies(reg: Registry, st: MenuState, e: Edges)
    ensures Tick(reg, st, e).state.visible == (st.visible != e.toggle)
    ensures Tick(reg, st, e).state.notifications ==
            st.notifications + (if !e.toggle then [] else if st.visible then [Hidden] else [Shown])
  {
    var s1 := if e.toggle then ToggleVisibility(st) else st;
    if s1.visible {
      var r1 := AfterEdge(reg, Done(s1), e.down, Down);
      var r2 := AfterEdge(reg, r1, e.up, Up);
      var r3 := AfterEdge(reg, r2, e.enter, Press(Validate));
      var r4 := AfterEdge(reg, r3, e.left, Press(Left));
      AfterEdgeKeeps(reg, Done(s1), e.down, Down);
      AfterEdgeKeeps(reg, r1, e.up, Up);
      AfterEdgeKeeps(reg, r2, e.enter, Press(Validate));
      AfterEdgeKeeps(reg, r3, e.left, Press(Left));
      AfterEdgeKeeps(reg, r4, e.right, Press(Right));
    }
  }

  /** A lone toggle resets the selection to 0 whatever it was. */
  lemma ToggleResetsSelection(reg: Registry, st: MenuState)
    ensures Tick(reg, st, ToggleOnly).state.selected == 0
    ensures Tick(reg, st, ToggleOnly).fault == None
  {
  }

  /** While hidden, every edge but toggle is ignored: nothing changes. */
  lemma HiddenIgnoresInput(reg: Registry, st: MenuState, e: Edges)
    requires !st.visible && !e.toggle
    ensures Tick(reg, st, e) == Done(st)
  {
  }

  /** Hiding the menu ignores the other edges of the same frame. */
  lemma HidingIgnoresRest(reg: Registry, st: MenuState, e: Edges)
    requires st.visible && e.toggle
    ensures Tick(reg, st, e) == Done(ToggleVisibility(st))
  {
  }

  /** Every tick keeps the selection invariant, whatever it raises. */
  lemma TickKeepsSelectionInRange(reg: Registry, st: MenuState, e: Edges)
    requires SelectionInRange(st)
    ensures SelectionInRange(Tick(reg, st, e).state)
  {
    var s1 := if e.toggle then ToggleVisibility(st) else st;
    assert SelectionInRange(s1);
    if s1.visible {
      var r1 := AfterEdge(reg, Done(s1), e.down, Down);
      var r2 := AfterEdge(reg, r1, e.up, Up);
      var r3 := AfterEdge(reg, r2, e.enter, Press(Validate));
      var r4 := AfterEdge(reg, r3, e.left, Press(Left));
      AfterEdgeKeeps(reg, Done(s1), e.down, Down);
      AfterEdgeKeeps(reg, r1, e.up, Up);
      AfterEdgeKeeps(reg, r2, e.enter, Press(Validate));
      AfterEdgeKeeps(reg, r3, e.left, Press(Left));
      AfterEdgeKeeps(reg, r4, e.right, Press(Right));
    }
  }

  /** A visible menu with rows whose selection is a row. */
  predicate Browsing(st: MenuState)
  {
    st.visible && st.currentItems.Some? && |st.currentItems.value| > 0 &&
    0 <= st.selected < |st.currentItems.value|
  }

  /** Down moves to the next row and wraps from the last to the first. */
  lemma DownStep(reg: Registry, st: MenuState)
    requires Browsing(st)
    ensures var n := |st.currentItems.value|;
            Tick(reg, st, DownOnly) == Done(st.(selected := (st.selected + 1) % n))
  {
    var n := |st.currentItems.value|;
    ModOfSmall(st.selected + 1, n);
  }

  /** Up moves to the previous row and wraps from the first to the last. */
  lemma UpStep(reg: Registry, st: MenuState)
    requires Browsing(st)
    ensures var n := |st.currentItems.value|;
            Tick(reg, st, UpOnly) == Done(st.(selected := (st.selected - 1 + n) % n))
  {
    var n := |st.currentItems.value|;
    ModOfSmall(st.selected - 1 + n, n);
  }

  lemma ModOfSmall(x: int, n: int)
    requires 0 < n && 0 <= x < n + n
    ensures x % n == if x >= n then x - n else x
  {
    if x >= n {
      assert x == 1 * n + (x - n);
    } else {
      assert x == 0 * n + x;
    }
  }

  /** k downs in a row advance the selection by k rows, wrapping around. */
  lemma {:induction false} DownsAdvance(reg: Registry, st: MenuState, k: nat)
    requires Browsing(st)
    requires k <= |st.currentItems.value|
    ensures var n := |st.currentItems.value|;
            Repeat(reg, st, DownOnly, k) ==
            st.(selected := if st.selected + k < n then st.selected + k else st.selected + k - n)
  {
    if k > 0 {
      DownsAdvance(reg, st, k - 1);
    }
  }

  /** k ups in a row move the selection back by k rows, wrapping around. */
  lemma {:induction false} UpsRetreat(reg: Registry, st: MenuState, k: nat)
    requires Browsing(st)
    requires k <= |st.currentItems.value|
    ensures var n := |st.currentItems.value|;
            Repeat(reg, st, UpOnly, k) ==
            st.(selected := if st.selected - k >= 0 then st.selected - k else st.selected - k + n)
  {
    if k > 0 {
      UpsRetreat(reg, st, k - 1);
    }
  }

  /** As many downs, or as many ups, as there are rows bring the selection
      back to where it started. */
  lemma WrapAround(reg: Registry, st: MenuState)
    requires Browsing(st)
    ensures Repeat(reg, st, DownOnly, |st.currentItems.value|) == st
    ensures Repeat(reg, st, UpOnly, |st.currentItems.value|) == st
  {
    DownsAdvance(reg, st, |st.currentItems.value|);
    UpsRetreat(reg, st, |st.currentItems.value|);
  }

  /** Enter, left or right runs the selected row's action for that edge;
      an absent action changes nothing at all. */
  lemma PressRunsAction(reg: Registry, st: MenuState, slot: Slot)
    requires Browsing(st)
    ensures Tick(reg, st, PressOnly(slot)) ==
            Done(Perform(reg, st, ActionOf(st.currentItems.value[st.selected], slot)))
    ensures ActionOf(st.currentItems.value[st.selected], slot) == NoAction ==>
            Tick(reg, st, PressOnly(slot)) == Done(st)
  {
  }

  /** Enter on a navigation row loads its folder. */
  lemma EnterNavigates(reg: Registry, st: MenuState, target: string)
    requires Browsing(st)
    requires st.currentItems.value[st.selected].onValidate == Navigate(target)
    ensures Tick(reg, st, PressOnly(Validate)) == Done(Load(reg, st, target))
    ensures Tick(reg, st, PressOnly(Validate)).state.currentItems == Some(Rows(reg, target))
    ensures Tick(reg, st, PressOnly(Validate)).state.selected == 0
  {
  }

  /** The edges act in order: enter and right in one frame on a navigation
      row runs right on row 0 of the folder just loaded. Below the root
      that row is the up row, which has no right action, so the right edge
      does nothing; a folder without rows raises an index fault. */
  lemma EnterThenRight(reg: Registry, st: MenuState, target: string)
    requires Browsing(st)
    requires st.currentItems.value[st.selected].onValidate == Navigate(target)
    ensures var both := Edges(false, false, false, true, false, true);
            var loaded := Load(reg, st, target);
            && (|Rows(reg, target)| > 0 ==>
                  Tick(reg, st, both) == Done(Perform(reg, loaded, Rows(reg, target)[0].onRight)))
            && (target != "" ==> Tick(reg, st, both) == Done(loaded))
            && (|Rows(reg, target)| == 0 ==> Tick(reg, st, both) == TickResult(loaded, Some(IndexOutOfRange(0))))
  {
    if target != "" {
      UpRowFirst(reg, target);
    }
  }

  // ---------------------------------------------------------------------
  // The hazards of the tick

  /** Any of down, up, enter, left or right in the frame that first shows
      the menu, before the drawing pass has loaded anything, raises on the
      null row array; the edges after it in that frame are skipped. */
  lemma NavigatingBeforeLoadFaults(reg: Registry, st: MenuState, e: Edges)
    requires !st.visible && st.currentItems.None? && e.toggle
    requires e.down || e.up || e.enter || e.left || e.right
    ensures Tick(reg, st, e).fault == Some(NullItems)
    ensures Tick(reg, st, e).state.currentItems.None?
  {
  }

  /** In a folder with no rows, up leaves the selection at -1 and enter,
      left or right then index outside the empty row array. */
  lemma EmptyFolder(reg: Registry, st: MenuState, slot: Slot)
    requires st.visible && st.currentItems == Some([]) && st.selected == 0
    ensures Tick(reg, st, UpOnly) == Done(st.(selected := -1))
    ensures Tick(reg, st, PressOnly(slot)) == TickResult(st, Some(IndexOutOfRange(0)))
    ensures Tick(reg, st.(selected := -1), PressOnly(slot)) ==
            TickResult(st.(selected := -1), Some(IndexOutOfRange(-1)))
  {
  }

  // ---------------------------------------------------------------------
  // Drawing

  /** The drawing pass loads the root when the visible menu has not loaded
      a row array yet (an empty folder already loaded is left as it is),
      and never again after that. */
  lemma DrawLoadsRootOnce(reg: Registry, st: MenuState)
    ensures st.visible ==> Draw(reg, st).currentItems.Some?
    ensures st.visible && st.currentItems.None? ==>
            Draw(reg, st) == Load(reg, st, "") && Draw(reg, st).currentItems == Some(Rows(reg, ""))
    ensures st.currentItems.Some? ==> Draw(reg, st) == st
    ensures !st.visible ==> Draw(reg, st) == st
    ensures Draw(reg, Draw(reg, st)) == Draw(reg, st)
    ensures SelectionInRange(st) ==> SelectionInRange(Draw(reg, st))
  {
  }
}
