/** A sample catalog of three of the shipped items, the exit item at the
    root and the frame-rate limit and VSync items under "Rendering", run
    through the registry build, the navigator and the input tick. */
module Scenario {
  import opened Wrappers
  import opened Render
  import opened Items
  import opened ItemRegistry
  import opened Navigator
  import opened Machine

  const Rendering: string := "Rendering"

  /** A discovery order for three of the shipped items: the root item, then
      the two rendering items in the order they are declared, and last the
      navigation row class, which has no attribute and no parameterless
      constructor; the attribute test skips it before anything would try to
      create an instance of it. */
  const Candidates: seq<Candidate> := [
    Candidate(Some(""), Some(ExitItem)),
    Candidate(Some(Rendering), Some(FrameRateLimitItem)),
    Candidate(Some(Rendering), Some(VSyncItem)),
    Candidate(None, None)
  ]

  const RootEntry: Entry := Entry("", [ExitItem])
  const RenderingEntry: Entry := Entry(Rendering, [FrameRateLimitItem, VSyncItem])
  const Catalog: Registry := [RootEntry, RenderingEntry]

  lemma CatalogKeys()
    ensures Keys(Catalog) == ["", Rendering]
    ensures ItemsAt(Catalog, "") == [ExitItem]
    ensures ItemsAt(Catalog, Rendering) == [FrameRateLimitItem, VSyncItem]
  {
    assert [RenderingEntry][1..] == [];
    assert Keys([RenderingEntry]) == [Rendering];
    assert Catalog[1..] == [RenderingEntry];
    assert Keys(Catalog) == [""] + Keys([RenderingEntry]);
    assert Lookup([RenderingEntry], Rendering) == Some(RenderingEntry.items);
  }

  lemma BuildSample()
    ensures Build(Candidates) == Success(Catalog)
  {
    var c := Candidates;
    var limitEntry := Entry(Rendering, [FrameRateLimitItem]);
    var emptyEntry := Entry(Rendering, []);
    var r1 := [RootEntry];
    var r2 := [RootEntry, limitEntry];

    assert c[..1][..0] == [];
    assert Keys(Empty) == [""];
    assert Empty[1..] == [];
    assert AppendTo([], "", ExitItem) == [];
    assert Empty[0].items + [ExitItem] == [ExitItem];
    assert AppendTo(Empty, "", ExitItem) == r1;
    assert Build(c[..1]) == Success(r1);

    assert c[..2][..1] == c[..1];
    assert r1[1..] == [];
    assert Keys(r1) == [""];
    assert WithKey(r1, Rendering) == [RootEntry, emptyEntry];
    assert [emptyEntry][1..] == [];
    assert emptyEntry.items + [FrameRateLimitItem] == [FrameRateLimitItem];
    assert AppendTo([emptyEntry], Rendering, FrameRateLimitItem) == [limitEntry];
    assert [RootEntry, emptyEntry][1..] == [emptyEntry];
    assert AppendTo([RootEntry, emptyEntry], Rendering, FrameRateLimitItem) == r2;
    assert Build(c[..2]) == Success(r2);

    assert c[..3][..2] == c[..2];
    assert r2[1..] == [limitEntry];
    assert [limitEntry][1..] == [];
    assert Keys([limitEntry]) == [Rendering];
    assert Keys(r2) == ["", Rendering];
    assert WithKey(r2, Rendering) == r2;
    assert limitEntry.items + [VSyncItem] == RenderingEntry.items;
    assert AppendTo([limitEntry], Rendering, VSyncItem) == [RenderingEntry];
    assert AppendTo(r2, Rendering, VSyncItem) == Catalog;
    assert Build(c[..3]) == Success(Catalog);

    assert c[..4][..3] == c[..3];
    assert c[..4] == c;
  }

  lemma RenderingIsOneSegment()
    ensures Paths.Split(Rendering) == [Rendering]
    ensures Paths.Depth(Rendering) == 1
    ensures Paths.Parent(Rendering) == "" && Paths.Last(Rendering) == Rendering
  {
    Paths.SplitNoSeparator(Rendering);
    Paths.ParentOfSingleSegment(Rendering);
  }

  /** The root shows the "Rendering" folder row before the exit item. */
  lemma RootRows()
    ensures Rows(Catalog, "") == [NavigationItem(Rendering, Rendering), ExitItem]
    ensures Title("") == RootTitle
  {
    RenderingIsOneSegment();
    CatalogKeys();
    assert "" <= Rendering;
    assert Listed(Rendering, "");
    assert !Listed("", "");
    assert [Rendering][1..] == [];
    assert SubFolders([Rendering], "") == [Rendering];
    assert ["", Rendering][1..] == [Rendering];
    assert SubFolders(["", Rendering], "") == [Rendering];
    assert [Rendering][..0] == [];
    assert FolderRows([Rendering]) == [NavigationItem(Rendering, Rendering)];
    assert UpRows("") == [];
  }

  /** The "Rendering" folder shows the up row, loading the root, and then
      its two items. */
  lemma RenderingRows()
    ensures Rows(Catalog, Rendering) == [NavigationItem("", UpName), FrameRateLimitItem, VSyncItem]
    ensures Title(Rendering) == Rendering
  {
    RenderingIsOneSegment();
    CatalogKeys();
    assert !Listed(Rendering, Rendering);
    assert !Listed("", Rendering);
    assert [Rendering][1..] == [];
    assert SubFolders([Rendering], Rendering) == [];
    assert ["", Rendering][1..] == [Rendering];
    assert SubFolders(["", Rendering], Rendering) == [];
    assert UpRows(Rendering) == [NavigationItem("", UpName)];
  }

  // ---------------------------------------------------------------------
  // A session with the sample catalog

  const RootRowList: seq<Item> := [NavigationItem(Rendering, Rendering), ExitItem]
  const RenderingRowList: seq<Item> := [NavigationItem("", UpName), FrameRateLimitItem, VSyncItem]

  /** The first toggle shows the menu and fires "shown"; the drawing pass
      then loads the root. */
  lemma ShowMenu(frameRate: Int32, vSyncCount: Int32)
    ensures var shown := Tick(Catalog, Initial(frameRate, vSyncCount), ToggleOnly);
            var drawn := Draw(Catalog, shown.state);
            && shown.fault == None
            && drawn.visible && drawn.notifications == [Shown]
            && drawn.currentPath == "" && drawn.menuName == RootTitle
            && drawn.currentItems == Some(RootRowList) && drawn.selected == 0
  {
    RootRows();
  }

  /** Enter on the "Rendering" row opens the folder with row 0 selected. */
  lemma OpenRendering(st: MenuState)
    requires st.visible && st.currentItems == Some(RootRowList) && st.selected == 0
    ensures var r := Tick(Catalog, st, PressOnly(Validate));
            && r.fault == None
            && r.state.currentPath == Rendering && r.state.menuName == Rendering
            && r.state.currentItems == Some(RenderingRowList) && r.state.selected == 0
  {
    EnterNavigates(Catalog, st, Rendering);
    RenderingRows();
  }

  /** Enter, left and right on the VSync row all toggle it, so any two of
      them bring its displayed value back. */
  lemma ToggleVSyncTwice(st: MenuState, first: Slot, second: Slot)
    requires st.visible && st.currentItems == Some(RenderingRowList) && st.selected == 2
    ensures var once := Tick(Catalog, st, PressOnly(first));
            var twice := Tick(Catalog, once.state, PressOnly(second));
            && once == Done(st.(vSyncCount := ToggleVSync(st.vSyncCount)))
            && twice == Done(st.(vSyncCount := ToggleVSync(ToggleVSync(st.vSyncCount))))
            && ValueOf(VSyncItem, twice.state.frameRate, twice.state.vSyncCount) ==
               ValueOf(VSyncItem, st.frameRate, st.vSyncCount)
  {
    PressRunsAction(Catalog, st, first);
    assert ActionOf(VSyncItem, first) == Invoke(VSyncToggle);
    var once := st.(vSyncCount := ToggleVSync(st.vSyncCount));
    assert Perform(Catalog, st, Invoke(VSyncToggle)) == once;
    PressRunsAction(Catalog, once, second);
    assert ActionOf(VSyncItem, second) == Invoke(VSyncToggle);
    assert Perform(Catalog, once, Invoke(VSyncToggle)) ==
           st.(vSyncCount := ToggleVSync(ToggleVSync(st.vSyncCount)));
    ToggleDisplay(st.vSyncCount);
  }

  /** Right on the frame-rate row raises the limit; from unlimited it shows 60. */
  lemma RaiseFrameRate(st: MenuState)
    requires st.visible && st.currentItems == Some(RenderingRowList) && st.selected == 1
    ensures Tick(Catalog, st, PressOnly(Right)) == Done(st.(frameRate := IncrementLimit(st.frameRate)))
    ensures st.frameRate == Unlimited ==>
            ValueOf(FrameRateLimitItem, Tick(Catalog, st, PressOnly(Right)).state.frameRate, 0) == "60"
  {
    PressRunsAction(Catalog, st, Right);
    assert NatToString(6) == "6";
    assert NatToString(60) == NatToString(6) + ['0'];
  }

  /** Enter on the up row of "Rendering" goes back to the root. */
  lemma LeaveRendering(st: MenuState)
    requires st.visible && st.currentItems == Some(RenderingRowList) && st.selected == 0
    ensures var r := Tick(Catalog, st, PressOnly(Validate));
            && r.fault == None
            && r.state.currentPath == "" && r.state.menuName == RootTitle
            && r.state.currentItems == Some(RootRowList) && r.state.selected == 0
  {
    EnterNavigates(Catalog, st, "");
    RootRows();
  }
}
