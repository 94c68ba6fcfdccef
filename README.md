# Debug menu engine, modelled in Dafny

The system is a small in-game debug menu for Unity.

- **Registry.** At start-up every concrete item type that carries a `DebugMenuItem(path)` attribute is instantiated once. Its instance is filed under its folder path. The root path `""` is always present.
- **Navigation.** The menu shows one folder at a time. The rows are, in order:
  - an "up" row, below the root;
  - one "enter" row per subfolder key;
  - the items registered at exactly that path.
- **Input.** Each frame, six edge-triggered inputs are applied one after another: toggle, down, up, enter, left, right.
  - Toggle shows or hides the menu and fires a shown/hidden event.
  - Down and up move the selection, wrapping at both ends.
  - Enter, left and right run the selected row's optional action.
- **Drawing.** The drawing pass loads the root folder when the visible menu has not loaded a row array yet (`currentItems` is null). An empty folder that is already loaded is not reloaded.
- **Sample items.** Two items from the rendering folder are modelled:
  - a frame-rate limit stepper, with -1 meaning unlimited;
  - a VSync toggle.

## Layout

- `wrappers.dfy`: `Option` and `Result`.
- `paths.dfy` (`Paths`): C#'s `Split('/')` taken literally (empty segments kept), `string.Join`, substring `Contains`, depth, last segment and parent path. Split/join round trips are proved.
- `render.dfy` (`Render`):
  - the frame-rate limit and VSync operations on 32-bit integers, with wrap-around;
  - their value strings and decimal formatting;
  - the `RenderSettings` class, which holds `Application.targetFrameRate` and `QualitySettings.vSyncCount` and updates them in place.
- `items.dfy` (`Items`): the item record (a label, a value display, three optional actions), the synthetic navigation row and the sample items.
- `registry.dfy` (`ItemRegistry`):
  - the registry as an ordered sequence of `(path, items)` entries. .NET does not document the enumeration order of `Dictionary`; in practice it is insertion order when no key is ever removed, as here, and the model fixes that order;
  - the imperative start-up loop `Initialize`, proved against the fold `Build`;
  - reference definitions of what a build must contain.
- `navigator.dfy` (`Navigator`): the subfolder filter, the row array of a folder and its title.
- `machine.dfy` (`Machine`):
  - the menu's state as a value;
  - `LoadMenu`, the per-frame `Update` tick (including the exceptions it can raise) and the lazy load of `OnGUI`, as functions;
  - the lemmas about them.
- `menu.dfy` (`DebugMenu`):
  - the `Menu` class, whose fields are updated in place by `LoadMenu`, `Update` and `OnGUI`. Each method is proved to take the class from `old(Snapshot())` to exactly the state the `Machine` function gives.
  - start-up `Initialize`.
- `presenter.dfy` (`Presenter`): the value column written by the drawing pass (see Findings).
- `scenario.dfy` (`Scenario`): a sample catalog of three of the shipped items, in a chosen discovery order, run through the registry build, the navigator and the tick. The catalog holds the exit item at the root, then the frame-rate limit and VSync items under `Rendering` in declaration order, then the navigation row class, which has no attribute. It omits the other shipped items: the FPS item under `Rendering`, the four `Time` items and the `Physics` item. With them, the root would also show folder rows for `Time` and `Physics`.

Input actions become booleans per frame. The host globals changed by items become fields of `RenderSettings`. Actions that call into the host (quitting) become `Host(id)` operations, recorded in an append-only log. The shown/hidden events become a notification log.

An exception in `Update` becomes a `Fault`:
- a null row array before the first load;
- an index outside the row array.

The state changes made before the exception are kept, and the rest of that frame's inputs are skipped, as in C#.

Two behaviours of the code deserve a note:
- **Subfolder test.** A key is listed under a folder when it *contains* the folder's path as a substring and has one more segment. It does not have to *start* with the path, so `"BA/C"` is listed under folder `"A"`. `Navigator.SubstringMatchListsForeignKey` shows this.
- **Failing constructors.** `Activator.CreateInstance` (Runtime/DebugMenu.cs:47) is not guarded, so the start-up stops at the first attributed type that cannot be instantiated. `ItemRegistry.Build` returns `Failure(InstantiationFailed(i))` for that candidate, and `DebugMenu.Initialize` then creates no menu.

## Model

| member | source | states |
|---|---|---|
| ItemRegistry.Initialize | Runtime/DebugMenu.cs:34-52 | the start-up loop over the candidates yields exactly the registry fold `Build`; the loop keeps the fold of the candidates seen so far as its invariant |
| ItemRegistry.BuildContents | Runtime/DebugMenu.cs:34-51 | after a successful build: root key `""` is first and always present; the keys are the root followed by the declared paths, without repeats, in order of first declaration; every key holds exactly the instances of the candidates that declare it, in discovery order; unattributed candidates appear nowhere |
| ItemRegistry.BuildTotal | Runtime/DebugMenu.cs:39-51 | a successful build holds one instance per attributed candidate, no more and no fewer |
| ItemRegistry.BuildFailsIff | Runtime/DebugMenu.cs:47 | the build fails iff some attributed candidate cannot be instantiated, and then it names the first such candidate |
| ItemRegistry.BuildFailureStays | Runtime/DebugMenu.cs:47 | once the build has failed on a prefix of the candidates, the later candidates do not change the outcome |
| ItemRegistry.DedupFacts | Runtime/DebugMenu.cs:48-49 | the reference key list has the same members as its source and no repeats |
| ItemRegistry.LookupIffKey | Runtime/DebugMenu.cs:200 | a path has an item list iff it is a key (`ContainsKey`) |
| ItemRegistry.AppendToLookup | Runtime/DebugMenu.cs:51 | appending to one path's list extends that list by the item and leaves every other list unchanged |
| ItemRegistry.AppendToKeys | Runtime/DebugMenu.cs:51 | appending an item leaves the key order unchanged |
| ItemRegistry.AppendToTotal | Runtime/DebugMenu.cs:51 | appending to an existing key adds exactly one item to the registry |
| DebugMenu.Initialize | Runtime/DebugMenu.cs:31-58 | start-up succeeds iff the registry build does; on success it creates a fresh menu on that registry in its initial state; on failure it reports the build's error |
| Paths.SplitLength | Runtime/DebugMenu.cs:190 | `Split('/')` yields one more segment than there are separators |
| Paths.SplitSegmentsHaveNoSeparator | Runtime/DebugMenu.cs:190 | no segment of a split contains the separator |
| Paths.JoinSplit | Runtime/DebugMenu.cs:195 | joining the segments of a split gives the original string back |
| Paths.SplitJoin | Runtime/DebugMenu.cs:195 | splitting a join of separator-free segments gives the segments back |
| Paths.SplitAround | Runtime/DebugMenu.cs:190 | splitting around one separator concatenates the splits of both sides |
| Paths.DepthCountsSegments | Runtime/DebugMenu.cs:190 | depth is 0 for `""` and otherwise the number of `/`-separated segments |
| Paths.ParentAndLast | Runtime/DebugMenu.cs:195 | for a path with a separator, parent + `/` + last segment is the path, and the last segment has no separator |
| Paths.ParentOfSingleSegment | Runtime/DebugMenu.cs:195 | a single-segment path has parent `""` and is its own last segment |
| Paths.ChildPath | Runtime/DebugMenu.cs:190-195 | appending `/name` to a non-empty path adds one to the depth; the parent of the result is the path and its last segment is `name` |
| Paths.SingleSegmentIff | Runtime/DebugMenu.cs:192 | a string splits into a single segment iff it has no separator |
| Paths.ContainsIff | Runtime/DebugMenu.cs:192 | `Contains` holds iff the needle occurs at some offset of the haystack |
| Paths.ContainsPrefix | Runtime/DebugMenu.cs:192 | a string contains each of its prefixes |
| Items.NavigationItem | Runtime/DebugMenu.cs:266-276 | a navigation row has the given label, or, when that is empty, the last segment of the path: the path itself when it has no separator, and otherwise a separator-free segment that completes the path after its parent; enter loads the path; left and right do nothing; the value is `"(dir)"` |
| Navigator.SubFoldersIff | Runtime/DebugMenu.cs:192 | a string is a subfolder row iff it is a registry key that is non-empty, contains the current path and has depth + 1 segments |
| Navigator.SubFoldersAppend | Runtime/DebugMenu.cs:192 | the subfolder filter keeps key order: the result for keys `a + b` is the result for `a` followed by the result for `b` |
| Navigator.SubFoldersDistinct | Runtime/DebugMenu.cs:192 | distinct keys give distinct subfolder rows |
| Navigator.RootSubFolders | Runtime/DebugMenu.cs:190-192 | at the root the subfolders are exactly the non-empty single-segment keys |
| Navigator.ChildListed | Runtime/DebugMenu.cs:192 | every key that is the path plus one more segment is listed |
| Navigator.SubstringMatchListsForeignKey | Runtime/DebugMenu.cs:192 | with keys `"A"` and `"BA/C"`, folder `"A"` lists `"BA/C"`, whose parent is `"BA"`, not `"A"` |
| Navigator.FolderRowsAt | Runtime/DebugMenu.cs:197-198 | there is one "enter" row per subfolder, labelled with and loading the full key |
| Navigator.RowCount | Runtime/DebugMenu.cs:194-201 | the row count is (1 below the root, else 0) + the number of subfolders + the number of items registered at the path |
| Navigator.UpRowFirst | Runtime/DebugMenu.cs:194-195 | below the root, row 0 is the up row, labelled `"/.."` and loading the parent path (see `Paths.ParentAndLast` and `Paths.ParentOfSingleSegment` for what the parent is); at the root there is no up row |
| Navigator.FolderRowAt | Runtime/DebugMenu.cs:197-198 | after the up row, row j is the enter row of the j-th subfolder |
| Navigator.ItemRowAt | Runtime/DebugMenu.cs:200-201 | after the navigation rows, row j is the j-th item registered at the path |
| Navigator.NavigationRowsFirst | Runtime/DebugMenu.cs:194-198 | every row before the registered items is a navigation row showing `"(dir)"` |
| Navigator.TitleIsLastSegment | Runtime/DebugMenu.cs:203-206 | the title is `"Debug Menu"` at the root; otherwise it is the path's last segment: a separator-free suffix of the path that completes it after the parent, and for a single-segment path the path itself. Only this direction holds, not "iff the path is empty" (see `Navigator.TitleNotInjective`) |
| Navigator.TitleNotInjective | Runtime/DebugMenu.cs:203-206 | a folder path `"Debug Menu"` gets the same title as the root, so the title alone does not show whether the menu is at the root |
| DebugMenu.CollectRows | Runtime/DebugMenu.cs:188-201 | the loop that builds `itemList` yields the up row, then the subfolder rows, then the registered items |
| DebugMenu.Menu.constructor | Runtime/DebugMenu.cs:16-25 | a new menu is hidden, has nothing loaded and has selection 0 |
| DebugMenu.Menu.LoadMenu | Runtime/DebugMenu.cs:185-210 | the fields after `LoadMenu(path)` are exactly those `Machine.Load` gives |
| Machine.LoadDependsOnPathOnly | Runtime/DebugMenu.cs:185-210 | after loading: the path is set and the selection is 0; the rows and title depend only on the path; loading the same path again changes nothing; visibility and notifications are untouched |
| DebugMenu.Menu.Perform | Runtime/DebugMenu.cs:130 | running an action changes the menu and host globals as `Machine.Perform` says |
| DebugMenu.Menu.Activate | Runtime/DebugMenu.cs:128-141 | enter/left/right on the selected row, including the null-array and out-of-range faults, as `Machine.Activate` says |
| DebugMenu.Menu.ApplyEdge | Runtime/DebugMenu.cs:114-141 | one pressed edge changes the fields as `Machine.ApplyEdge` says |
| DebugMenu.Menu.Update | Runtime/DebugMenu.cs:99-143 | one frame's inputs take the fields and host globals to exactly the state, and raise exactly the fault, that `Machine.Tick` gives |
| DebugMenu.Menu.OnGUI | Runtime/DebugMenu.cs:145-151 | the drawing pass changes the fields exactly as `Machine.Draw` says |
| Machine.TickNotifies | Runtime/DebugMenu.cs:101-110 | a toggle flips visibility and fires exactly one notification, "shown" if the menu is now visible and "hidden" otherwise; without a toggle none is fired |
| Machine.ToggleResetsSelection | Runtime/DebugMenu.cs:101-104 | a lone toggle sets the selection to 0 and raises nothing |
| Machine.HiddenIgnoresInput | Runtime/DebugMenu.cs:112 | while hidden, a frame without a toggle changes no state |
| Machine.HidingIgnoresRest | Runtime/DebugMenu.cs:101-112 | a toggle that hides the menu ignores the other edges of that frame |
| Machine.AfterEdgeKeeps | Runtime/DebugMenu.cs:112-142 | no edge after the toggle changes visibility or notifications, and each edge keeps the selection invariant |
| Machine.TickKeepsSelectionInRange | Runtime/DebugMenu.cs:112-126 | every frame keeps the selection within the rows, or in {-1, 0} when the folder is empty |
| Machine.DownStep | Runtime/DebugMenu.cs:114-119 | down moves the selection from s to (s + 1) mod N |
| Machine.UpStep | Runtime/DebugMenu.cs:121-126 | up moves the selection from s to (s - 1 + N) mod N |
| Machine.DownsAdvance | Runtime/DebugMenu.cs:114-119 | k <= N downs in a row advance the selection by k, wrapping once past the end |
| Machine.UpsRetreat | Runtime/DebugMenu.cs:121-126 | k <= N ups in a row move the selection back by k, wrapping once past the start |
| Machine.WrapAround | Runtime/DebugMenu.cs:114-126 | N downs, or N ups, with N rows restore the whole state |
| Machine.PressRunsAction | Runtime/DebugMenu.cs:128-141 | enter, left or right runs the selected row's action for that edge; an absent action changes nothing |
| Machine.EnterNavigates | Runtime/DebugMenu.cs:128-131 | enter on a navigation row loads its target: the target's rows, with selection 0 |
| Machine.EnterThenRight | Runtime/DebugMenu.cs:128-141 | enter and right in one frame: right acts on row 0 of the newly loaded folder (the up row, a no-op, below the root), or raises an index fault when the folder is empty |
| Machine.NavigatingBeforeLoadFaults | Runtime/DebugMenu.cs:114-141 | any of down, up, enter, left or right in the frame that first shows the menu raises on the null row array, before any rows are loaded |
| Machine.EmptyFolder | Runtime/DebugMenu.cs:121-141 | in an empty folder, up sets the selection to -1, and enter/left/right then index outside the array |
| Machine.DrawLoadsRootOnce | Runtime/DebugMenu.cs:145-151 | the drawing pass loads the root iff the menu is visible and has not loaded a row array yet (`currentItems` is null); a loaded row array, even an empty one, is left as it is, and so is a hidden menu; the pass is idempotent and keeps the selection invariant |
| Render.Wrap32 | Runtime/Implementations/RenderDebugMenuItems.cs:61-73 | 32-bit wrap-around is the identity on values that fit |
| Render.IncrementCases | Runtime/Implementations/RenderDebugMenuItems.cs:67-77 | increment: -1 becomes 60; otherwise +10, with a result above 240 becoming -1; a sum past the 32-bit range wraps |
| Render.DecrementCases | Runtime/Implementations/RenderDebugMenuItems.cs:55-65 | decrement: -1 becomes 30; otherwise -10, with a result of exactly 0 becoming -1; a difference past the 32-bit range wraps |
| Render.StepsUndoEachOther | Runtime/Implementations/RenderDebugMenuItems.cs:55-77 | on reachable limits, decrement then increment restores limits >= 20, and increment then decrement restores limits in [10, 230] |
| Render.ApplyKeepsReachable | Runtime/Implementations/RenderDebugMenuItems.cs:51-77 | enter, decrement and increment each keep the limit in {-1, 10, 20, ..., 240} |
| Render.RunKeepsReachable | Runtime/Implementations/RenderDebugMenuItems.cs:51-77 | from that set, any sequence of enter, decrement and increment stays in it |
| Render.IncrementRun | Runtime/Implementations/RenderDebugMenuItems.cs:67-77 | from a multiple of ten in [60, 240], (240 - limit)/10 + 1 increments reach unlimited |
| Render.IncrementCycle | Runtime/Implementations/RenderDebugMenuItems.cs:67-77 | 20 increments from unlimited go round to unlimited |
| Render.LimitValueShows | Runtime/Implementations/RenderDebugMenuItems.cs:44-48 | the value is `"Unlimited"` iff the limit is -1; a non-negative limit is shown as its decimal digits, with no leading zero, which read back as the limit |
| Render.NatToStringRoundTrip | Runtime/Implementations/RenderDebugMenuItems.cs:47 | the decimal text of a natural number is all digits, has no leading zero and reads back as the number |
| Render.IntToStringStart | Runtime/Implementations/RenderDebugMenuItems.cs:47 | the decimal text of an integer starts with `-` iff it is negative, and with a digit otherwise |
| Render.ToggleDisplay | Runtime/Implementations/RenderDebugMenuItems.cs:84-95 | the VSync value is `"Disabled"` iff the count is 0; a toggle always changes the value and two toggles restore it; two toggles restore the count itself iff it was 0 or 1 |
| Render.RenderSettings.SetUnlimited | Runtime/Implementations/RenderDebugMenuItems.cs:51 | enter on the frame-rate item sets the limit to -1 and leaves VSync alone |
| Render.RenderSettings.Decrement | Runtime/Implementations/RenderDebugMenuItems.cs:55-65 | the limit becomes `DecrementLimit` of the old one, VSync is unchanged, and reachable limits stay reachable |
| Render.RenderSettings.Increment | Runtime/Implementations/RenderDebugMenuItems.cs:67-77 | the limit becomes `IncrementLimit` of the old one, VSync is unchanged, and reachable limits stay reachable |
| Render.RenderSettings.Toggle | Runtime/Implementations/RenderDebugMenuItems.cs:89-95 | the count becomes 1 from 0 and 0 from anything else; the shown value changes; the limit is unchanged |
| Presenter.ValueCellMarks | Runtime/DebugMenu.cs:180 | (corrected) the value cell opens with `<` iff left acts and closes with `>` iff right acts, with the value in between |
| Presenter.RightMarkFollowsLeftAsWritten | Runtime/DebugMenu.cs:180 | (as written) a right-only item is drawn without `>` and a left-only item with it |
| Scenario.BuildSample | Runtime/DebugMenu.cs:34-51 | a sample catalog of three shipped items in a chosen discovery order (Exit at the root, then frame-rate limit and VSync under `Rendering`), followed by the unattributed navigation row class that cannot be instantiated, builds into root `[Exit]` and `Rendering` `[Limit, VSync]`: the attribute test skips the unattributed class before creating an instance of it |
| Scenario.RootRows | Runtime/DebugMenu.cs:190-201 | the root shows an enter row for `Rendering`, then Exit |
| Scenario.RenderingRows | Runtime/DebugMenu.cs:190-201 | `Rendering` shows the up row to `""`, then the frame-rate limit and VSync |
| Scenario.ShowMenu | Runtime/DebugMenu.cs:101-151 | the first toggle shows the menu and fires "shown"; the drawing pass then loads the root, titled "Debug Menu", with selection 0 |
| Scenario.OpenRendering | Runtime/DebugMenu.cs:128-131 | enter on the `Rendering` row opens that folder, titled `Rendering`, with selection 0 |
| Scenario.ToggleVSyncTwice | Runtime/Implementations/RenderDebugMenuItems.cs:85-95 | enter, left and right on VSync each toggle it, and any two of them restore the shown value |
| Scenario.RaiseFrameRate | Runtime/Implementations/RenderDebugMenuItems.cs:53-77 | right on the limit row increments the limit and nothing else; from unlimited it shows `"60"` |
| Scenario.LeaveRendering | Runtime/DebugMenu.cs:194-195 | enter on the up row of `Rendering` returns to the root rows |

## Left out

- GUI painting and styles (`OnGUI` after the lazy load, `Styles`): these are Unity IMGUI calls, rectangles, colours and fonts. The value-cell text is modelled only for the finding below.
- Reflection discovery (`GetConcreteTypes`, including its catch of `GetTypes` failures): the candidates are given as an input sequence in discovery order, each an optional attribute path and an optional instance. `None` means the constructor throws.
- Input System set-up (`OnEnable`, `OnDisable`, `ToggleAction`) and `DebugMenuConfiguration`: `WasPressedThisFrame` becomes one boolean per input per frame. The null-config early return of `OnGUI` is not modelled because a configuration always exists after `OnEnable`.
- The singleton and `DontDestroyOnLoad` wiring: a navigation row carries its target path, and the menu running it loads that path.
- Invoking the shown/hidden events with no subscriber (a null-reference exception in C#): the events are a notification log.
- `currentPath`, `menuName` and `subFolders` start as null in C#. The model starts them as `""`, `""` and `[]`. No modelled operation reads them before `LoadMenu` sets them.
- A `DebugMenuItem("...")` attribute with a null path (a use of the attribute that the shipped items never make): paths are strings.
- The FPS item, the time and physics items, and the exit action's effect (quitting): the FPS and time items use float clocks and the physics item only negates a Unity global. Exit is a `Host` operation recorded in `hostCalls`.
- Unity's own handling of the globals it is given (platform clamping of `targetFrameRate`, the 0..4 range of `vSyncCount`): the model keeps the stored integers as the code writes them.
- `IntToString` prints negative numbers with an ASCII `-`. Culture-specific number formatting is not modelled.
- Concurrency: none; Unity calls `Update` and `OnGUI` on one thread.

## Findings

| source | as written | input that shows it | evidently intended | confidence | as-written member | corrected member |
|---|---|---|---|---|---|---|
| Runtime/DebugMenu.cs:180 | the closing `>` marker of the value cell tests `OnLeft`, like the opening `<` | an item with only `OnRight` set and value `"3"` is drawn as `"  3  "` (no `>`); an item with only `OnLeft` is drawn as `"< 3 >"` | the closing marker tests `OnRight`: `"  3 >"` and `"< 3  "` | not executed; the shipped items set both or neither, so they do not show it | Presenter.RightMarkFollowsLeftAsWritten | Presenter.ValueCellMarks |
