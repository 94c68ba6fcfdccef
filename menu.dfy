/** The menu component: its fields updated in place by LoadMenu, Update and
    the lazy load of OnGUI, each proved to follow the functions of Machine.
    The item actions it runs update the host globals held by a
    Render.RenderSettings object. */
module DebugMenu {
  import opened Wrappers
  import opened Render
  import opened Items
  import opened ItemRegistry
  import opened Navigator
  import opened Machine

  class Menu {
    /** The registry, built once before the menu exists. */
    const registry: Registry
    /** The host globals the sample items change. */
    const settings: RenderSettings

    var visible: bool
    var currentPath: string
    var menuName: string
    var selected: int
    var currentItems: Option<seq<Item>>
    var subFolders: seq<string>
    /** The shown/hidden events fired so far. */
    var notifications: seq<Notification>
    /** The host calls made by items so far. */
    var hostCalls: seq<nat>

    function Snapshot(): MenuState
      reads this, settings
    {
      MenuState(visible, currentPath, menuName, selected, currentItems, subFolders,
                notifications, hostCalls, settings.targetFrameRate, settings.vSyncCount)
    }

    constructor (registry: Registry, settings: RenderSettings)
      ensures this.registry == registry && this.settings == settings
      ensures Snapshot() == Initial(settings.targetFrameRate, settings.vSyncCount)
    {
      this.registry := registry;
      this.settings := settings;
      visible := false;
      currentPath := "";
      menuName := "";
      selected := 0;
      currentItems := None;
      subFolders := [];
      notifications := [];
      hostCalls := [];
    }

    /** Builds the row array of a folder: the up row, one row per
        subfolder, then the registered items; resets the selection. */
    method LoadMenu(path: string)
      modifies this
      ensures Snapshot() == Load(registry, old(Snapshot()), path)
    {
      currentPath := path;
      subFolders := SubFolders(Keys(registry), currentPath);
      var itemList := CollectRows(registry, currentPath, subFolders);
      if currentPath == "" {
        menuName := RootTitle;
      } else {
        menuName := Paths.Last(path);
      }
      currentItems := Some(itemList);
      selected := 0;
    }

    /** `action?.Invoke()` */
    method Perform(action: Action)
      modifies this, settings
      ensures Snapshot() == Machine.Perform(registry, old(Snapshot()), action)
    {
      match action {
        case NoAction =>
        case Navigate(target) => LoadMenu(target);
        case Invoke(op) =>
          match op {
            case FrameRate(limitOp) =>
              match limitOp {
                case Unlimit => settings.SetUnlimited();
                case StepDown => settings.Decrement();
                case StepUp => settings.Increment();
              }
            case VSyncToggle => settings.Toggle();
            case Host(id) => hostCalls := hostCalls + [id];
          }
      }
    }

    /** `currentItems[selected].OnX?.Invoke()` */
    method Activate(slot: Slot) returns (fault: Option<Fault>)
      modifies this, settings
      ensures TickResult(Snapshot(), fault) == Machine.Activate(registry, old(Snapshot()), slot)
    {
      if currentItems.None? {
        return Some(NullItems);
      }
      var rows := currentItems.value;
      if !(0 <= selected < |rows|) {
        return Some(IndexOutOfRange(selected));
      }
      Perform(ActionOf(rows[selected], slot));
      fault := None;
    }

    /** One of down, up, enter, left and right. */
    method ApplyEdge(edge: Edge) returns (fault: Option<Fault>)
      modifies this, settings
      ensures TickResult(Snapshot(), fault) == Machine.ApplyEdge(registry, old(Snapshot()), edge)
    {
      fault := None;
      match edge {
        case Down =>
          selected := selected + 1;
          if currentItems.None? {
            fault := Some(NullItems);
            return;
          }
          if selected >= |currentItems.value| {
            selected := 0;
          }
        case Up =>
          selected := selected - 1;
          if selected < 0 {
            if currentItems.None? {
              fault := Some(NullItems);
              return;
            }
            selected := |currentItems.value| - 1;
          }
        case Press(slot) =>
          fault := Activate(slot);
      }
    }

    /** The per-frame input handling; returns the exception it raises, if any. */
    method Update(e: Edges) returns (fault: Option<Fault>)
      modifies this, settings
      ensures TickResult(Snapshot(), fault) == Tick(registry, old(Snapshot()), e)
    {
      ghost var st := Snapshot();
      if e.toggle {
        visible := !visible;
        selected := 0;
        if visible {
          notifications := notifications + [Shown];
        } else {
          notifications := notifications + [Hidden];
        }
      }
      ghost var s1 := if e.toggle then ToggleVisibility(st) else st;
      assert Snapshot() == s1;
      fault := None;
      if !visible {
        return;
      }
      ghost var r := Done(s1);
      if e.down {
        fault := ApplyEdge(Down);
      }
      r := AfterEdge(registry, r, e.down, Down);
      assert TickResult(Snapshot(), fault) == r;
      if fault.Some? {
        return;
      }
      if e.up {
        fault := ApplyEdge(Up);
      }
      r := AfterEdge(registry, r, e.up, Up);
      assert TickResult(Snapshot(), fault) == r;
      if fault.Some? {
        return;
      }
      if e.enter {
        fault := ApplyEdge(Press(Validate));
      }
      r := AfterEdge(registry, r, e.enter, Press(Validate));
      assert TickResult(Snapshot(), fault) == r;
      if fault.Some? {
        return;
      }
      if e.left {
        fault := ApplyEdge(Press(Left));
      }
      r := AfterEdge(registry, r, e.left, Press(Left));
      assert TickResult(Snapshot(), fault) == r;
      if fault.Some? {
        return;
      }
      if e.right {
        fault := ApplyEdge(Press(Right));
      }
    }

    /** The lazy first load of the drawing pass. */
    method OnGUI()
      modifies this
      ensures Snapshot() == Draw(registry, old(Snapshot()))
    {
      if !visible {
        return;
      }
      if currentItems.None? {
        LoadMenu("");
      }
    }
  }

  /** The row list LoadMenu builds with Add and AddRange. */
  method CollectRows(registry: Registry, path: string, subFolders: seq<string>) returns (itemList: seq<Item>)
    ensures itemList == UpRows(path) + FolderRows(subFolders) + ItemsAt(registry, path)
  {
    itemList := [];
    var depth := Paths.Depth(path);
    if depth >= 1 {
      itemList := itemList + [NavigationItem(Paths.Parent(path), UpName)];
    }
    for k := 0 to |subFolders|
      invariant itemList == UpRows(path) + FolderRows(subFolders[..k])
    {
      assert subFolders[..k + 1][..k] == subFolders[..k];
      itemList := itemList + [NavigationItem(subFolders[k], subFolders[k])];
    }
    assert subFolders[..|subFolders|] == subFolders;
    match Lookup(registry, path) {
      case Some(list) => itemList := itemList + list;
      case None =>
    }
  }

  /** Start-up: the registry build, then the menu component. When creating
      an item throws, the exception leaves the start-up and no menu exists. */
  method Initialize(cands: seq<Candidate>, settings: RenderSettings) returns (r: Result<Menu, BuildError>)
    ensures r.Failure? ==> Build(cands).Failure? && r.error == Build(cands).error
    ensures r.Success? ==> Build(cands).Success? && fresh(r.value) &&
                           r.value.registry == Build(cands).value && r.value.settings == settings &&
                           r.value.Snapshot() == Initial(settings.targetFrameRate, settings.vSyncCount)
    ensures r.Success? <==> Build(cands).Success?
  {
    var built := ItemRegistry.Initialize(cands);
    match built {
      case Failure(err) => r := Failure(err);
      case Success(reg) =>
        var menu := new Menu(reg, settings);
        r := Success(menu);
    }
  }
}
