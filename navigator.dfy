/** The navigator's pure part: which rows a folder shows and its title. */
module Navigator {
  import opened Paths
  import opened Items
  import opened ItemRegistry

  const RootTitle: string := "Debug Menu"
  const UpName: string := "/.."

  /** The subfolder test as written: a non-empty key that CONTAINS the path
      as a substring and has one segment more than the path's depth. */
  predicate Listed(key: string, path: string)
  {
    key != "" && Contains(key, path) && |Split(key)| == Depth(path) + 1
  }

  /** The keys that pass the subfolder test, in key order. */
  function SubFolders(keys: seq<string>, path: string): seq<string>
  {
    if |keys| == 0 then []
    else (if Listed(keys[0], path) then [keys[0]] else []) + SubFolders(keys[1..], path)
  }

  /** The "up" row, present below the root. */
  function UpRows(path: string): seq<Item>
  {
    if Depth(path) >= 1 then [NavigationItem(Parent(path), UpName)] else []
  }

  /** One "enter subfolder" row per folder, labelled with the full key. */
  function FolderRows(folders: seq<string>): seq<Item>
  {
    if |folders| == 0 then []
    else
      var f := folders[|folders| - 1];
      FolderRows(folders[..|folders| - 1]) + [NavigationItem(f, f)]
  }

  /** The rows of a folder: up, subfolders, then the items registered at
      exactly that path. */
  function Rows(reg: Registry, path: string): seq<Item>
  {
    UpRows(path) + FolderRows(SubFolders(Keys(reg), path)) + ItemsAt(reg, path)
  }

  /** The title: the literal for the root, otherwise the last segment. */
  function Title(path: string): string
  {
    if path == "" then RootTitle else Last(path)
  }

  // ---------------------------------------------------------------------

  /** A key is listed exactly when it is a registry key that passes the test. */
  lemma {:induction false} SubFoldersIff(keys: seq<string>, path: string, key: string)
    ensures key in SubFolders(keys, path) <==> key in keys && Listed(key, path)
  {
    if |keys| > 0 {
      SubFoldersIff(keys[1..], path, key);
      assert keys == [keys[0]] + keys[1..];
    }
  }

  /** The filter keeps key order: the rows for a key sequence are the rows
      for its front followed by the rows for its back. */
  lemma {:induction false} SubFoldersAppend(front: seq<string>, back: seq<string>, path: string)
    ensures SubFolders(front + back, path) == SubFolders(front, path) + SubFolders(back, path)
    decreases |front|
  {
    if |front| > 0 {
      assert (front + back)[1..] == front[1..] + back;
      SubFoldersAppend(front[1..], back, path);
    } else {
      assert front + back == back;
    }
  }

  /** Distinct keys give distinct subfolder rows. */
  lemma {:induction false} SubFoldersDistinct(keys: seq<string>, path: string)
    requires forall i, j :: 0 <= i < j < |keys| ==> keys[i] != keys[j]
    ensures forall i, j :: 0 <= i < j < |SubFolders(keys, path)| ==>
              SubFolders(keys, path)[i] != SubFolders(keys, path)[j]
  {
    if |keys| > 0 {
      SubFoldersDistinct(keys[1..], path);
      if Listed(keys[0], path) {
        SubFoldersIff(keys[1..], path, keys[0]);
        assert keys[0] !in keys[1..];
      }
    }
  }

  /** At the root the subfolders are exactly the single-segment keys, so a
      folder that is not itself a key never appears, even when deeper keys
      lie below it. */
  lemma RootSubFolders(keys: seq<string>, key: string)
    ensures key in SubFolders(keys, "") <==> key in keys && key != "" && Separator !in key
  {
    SubFoldersIff(keys, "", key);
    SingleSegmentIff(key);
  }

  /** Below the root every real child key (the path, a separator and one
      more segment) is listed. */
  lemma ChildListed(keys: seq<string>, path: string, name: string)
    requires path != "" && Separator !in name
    requires path + [Separator] + name in keys
    ensures path + [Separator] + name in SubFolders(keys, path)
  {
    var child := path + [Separator] + name;
    SubFoldersIff(keys, path, child);
    ChildPath(path, name);
    assert path <= child;
    ContainsPrefix(child, path);
    assert Depth(child) == |Split(child)|;
  }

  /** The test is a substring test, not a prefix test: under "A" the key
      "BA/C" is listed as a subfolder although its parent is "BA". */
  lemma SubstringMatchListsForeignKey()
    ensures SubFolders(["", "A", "BA/C"], "A") == ["BA/C"]
    ensures Parent("BA/C") == "BA"
  {
    assert "A" <= "A";
    assert "A" <= "BA/C"[1..];
    assert Contains("BA/C", "A");
    assert "BA/C" == "BA" + [Separator] + "C";
    SplitAround("BA", "C");
    SplitNoSeparator("BA");
    SplitNoSeparator("C");
    assert Split("BA/C") == ["BA", "C"];
    SplitNoSeparator("A");
    assert Split("") == [""];
    assert |Split("A")| != Depth("A") + 1;
    assert ["", "A", "BA/C"][1..] == ["A", "BA/C"];
    assert ["A", "BA/C"][1..] == ["BA/C"];
    assert ["BA/C"][1..] == [];
  }

  lemma {:induction false} FolderRowsAt(folders: seq<string>)
    ensures |FolderRows(folders)| == |folders|
    ensures forall i :: 0 <= i < |folders| ==> FolderRows(folders)[i] == NavigationItem(folders[i], folders[i])
  {
    if |folders| > 0 {
      FolderRowsAt(folders[..|folders| - 1]);
    }
  }

  /** A folder shows one up row below the root, one row per subfolder and
      its registered items. */
  lemma RowCount(reg: Registry, path: string)
    ensures |Rows(reg, path)| ==
            (if path == "" then 0 else 1) + |SubFolders(Keys(reg), path)| + |ItemsAt(reg, path)|
  {
    FolderRowsAt(SubFolders(Keys(reg), path));
  }

  /** Below the root, row 0 is the up row: labelled "/..", loading the
      parent, showing the directory mark. At the root there is no up row:
      the rows start with the subfolders. */
  lemma UpRowFirst(reg: Registry, path: string)
    ensures path != "" ==> Rows(reg, path)[0] == NavigationItem(Parent(path), UpName)
    ensures path != "" ==> Rows(reg, path)[0].name == UpName &&
                           Rows(reg, path)[0].onValidate == Navigate(Parent(path))
    ensures path == "" ==>
            Rows(reg, path) == FolderRows(SubFolders(Keys(reg), path)) + ItemsAt(reg, path)
  {
  }

  /** After the up row come the subfolder rows, each labelled with and
      loading its full key. */
  lemma FolderRowAt(reg: Registry, path: string, j: nat)
    requires j < |SubFolders(Keys(reg), path)|
    ensures var up := if path == "" then 0 else 1;
            var folder := SubFolders(Keys(reg), path)[j];
            && up + j < |Rows(reg, path)|
            && Rows(reg, path)[up + j] == NavigationItem(folder, folder)
            && Rows(reg, path)[up + j].name == folder
            && Rows(reg, path)[up + j].onValidate == Navigate(folder)
  {
    var folders := SubFolders(Keys(reg), path);
    FolderRowsAt(folders);
    var u := UpRows(path);
    var f := FolderRows(folders);
    assert |u| == if path == "" then 0 else 1;
    assert f[j] == NavigationItem(folders[j], folders[j]);
    assert Rows(reg, path) == (u + f) + ItemsAt(reg, path);
    assert (u + f)[|u| + j] == f[j];
  }

  /** Then come the items registered at the path, in registry order. */
  lemma ItemRowAt(reg: Registry, path: string, j: nat)
    requires j < |ItemsAt(reg, path)|
    ensures var start := (if path == "" then 0 else 1) + |SubFolders(Keys(reg), path)|;
            start + j < |Rows(reg, path)| && Rows(reg, path)[start + j] == ItemsAt(reg, path)[j]
  {
    var folders := SubFolders(Keys(reg), path);
    var u := UpRows(path);
    var f := FolderRows(folders);
    assert |f| == |folders| by { FolderRowsAt(folders); }
    var items := ItemsAt(reg, path);
    assert |u| == if path == "" then 0 else 1;
    assert Rows(reg, path) == (u + f) + items;
    assert ((u + f) + items)[|u + f| + j] == items[j];
  }

  /** All rows before the registered items are navigation rows, which show
      the directory mark. */
  lemma NavigationRowsFirst(reg: Registry, path: string, i: nat)
    requires i < (if path == "" then 0 else 1) + |SubFolders(Keys(reg), path)|
    ensures i < |Rows(reg, path)|
    ensures IsNavigation(Rows(reg, path)[i])
    ensures forall fr, vs :: ValueOf(Rows(reg, path)[i], fr, vs) == DirectoryMark
  {
    if path != "" && i == 0 {
      UpRowFirst(reg, path);
    } else {
      FolderRowAt(reg, path, i - (if path == "" then 0 else 1));
    }
  }

  /** The title does not tell the root apart: a folder named like the
      root's title shows the same title. */
  lemma TitleNotInjective()
    ensures Title(RootTitle) == Title("")
  {
    SplitNoSeparator(RootTitle);
  }

  /** The title is the literal at the root and otherwise the last segment,
      which holds no separator and ends the path. */
  lemma TitleIsLastSegment(path: string)
    ensures path == "" ==> Title(path) == RootTitle
    ensures path != "" ==> Separator !in Title(path)
    ensures path != "" ==> |Title(path)| <= |path| && path[|path| - |Title(path)|..] == Title(path)
    ensures path != "" && Separator in path ==> path == Parent(path) + [Separator] + Title(path)
    ensures path != "" && Separator !in path ==> Title(path) == path
  {
    if path != "" {
      SplitSegmentsHaveNoSeparator(path);
      if Separator in path {
        ParentAndLast(path);
        var t := Last(path);
        assert path[|path| - |t|..] == t;
      } else {
        ParentOfSingleSegment(path);
      }
    }
  }
}
