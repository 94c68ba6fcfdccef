/** Menu items: a label, a value column and three optional actions that the
    menu runs on enter, left and right. */
module Items {
  import Paths
  import Render

  /** What an item does when one of its actions runs. */
  datatype Op =
    | FrameRate(limitOp: Render.LimitOp)  // changes the target frame rate
    | VSyncToggle                         // changes the vertical-sync count
    | Host(id: nat)                       // a call into the host the model does not see (quitting, ...)

  /** An optional action: absent (null in the source), loading a folder
      (a navigation row), or an item's own operation. */
  datatype Action = NoAction | Navigate(target: string) | Invoke(op: Op)

  /** Where an item's value column comes from; it is recomputed on each read. */
  datatype Display =
    | Fixed(text: string)  // a constant, the empty string by default
    | Directory            // the mark of navigation rows
    | FrameRateLimit       // the frame-rate limit, or "Unlimited"
    | VSyncState           // "Enabled" or "Disabled"

  /** `name` is the item's label (label is a reserved word in Dafny). */
  datatype Item = Item(name: string, display: Display, onValidate: Action, onLeft: Action, onRight: Action)

  /** The three edges that run an action of the selected row. */
  datatype Slot = Validate | Left | Right

  function ActionOf(item: Item, slot: Slot): Action
  {
    match slot
    case Validate => item.onValidate
    case Left => item.onLeft
    case Right => item.onRight
  }

  const DirectoryMark: string := "(dir)"

  /** The value column of an item under the given host settings. */
  function ValueOf(item: Item, frameRate: int, vSyncCount: int): string
  {
    match item.display
    case Fixed(text) => text
    case Directory => DirectoryMark
    case FrameRateLimit => Render.LimitValue(frameRate)
    case VSyncState => Render.VSyncValue(vSyncCount)
  }

  /** A synthetic navigation row that loads `path` on enter. Without a name
      it is labelled with the path's last segment. */
  function NavigationItem(path: string, name: string): (r: Item)
    ensures name != "" ==> r.name == name
    ensures name == "" ==> Paths.Separator !in r.name
    ensures name == "" && Paths.Separator in path ==> Paths.Parent(path) + "/" + r.name == path
    ensures name == "" && Paths.Separator !in path ==> r.name == path
    ensures r.onValidate == Navigate(path) && r.onLeft == NoAction && r.onRight == NoAction
    ensures forall fr, vs :: ValueOf(r, fr, vs) == DirectoryMark
  {
    if name == "" then
      Paths.SplitSegmentsHaveNoSeparator(path);
      if Paths.Separator in path then Paths.ParentAndLast(path); NavigationRow(path, Paths.Last(path))
      else Paths.SplitNoSeparator(path); NavigationRow(path, Paths.Last(path))
    else NavigationRow(path, name)
  }

  function NavigationRow(path: string, name: string): Item
  {
    Item(name, Directory, Navigate(path), NoAction, NoAction)
  }

  /** True of the synthetic rows: the directory mark and a folder to load. */
  predicate IsNavigation(item: Item)
  {
    item.display == Directory && item.onValidate.Navigate?
  }

  // The sample items.

  const ExitGame: nat := 0

  /** The root item that quits the application. */
  const ExitItem: Item := Item("Exit Game", Fixed(""), Invoke(Host(ExitGame)), NoAction, NoAction)

  /** Enter sets the limit to unlimited, left lowers it, right raises it. */
  const FrameRateLimitItem: Item :=
    Item("Limit Framerate", FrameRateLimit,
         Invoke(FrameRate(Render.Unlimit)),
         Invoke(FrameRate(Render.StepDown)),
         Invoke(FrameRate(Render.StepUp)))

  /** Enter, left and right all toggle. */
  const VSyncItem: Item :=
    Item("VSync", VSyncState, Invoke(VSyncToggle), Invoke(VSyncToggle), Invoke(VSyncToggle))
}
