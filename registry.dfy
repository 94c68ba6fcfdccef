/** The item registry: for each folder path, the items declared at exactly
    that path, built once at start-up from the discovered item types.
    It is kept as a sequence of entries so that the order in which the
    dictionary enumerates its keys (insertion order) is explicit. */
module ItemRegistry {
  import opened Wrappers
  import opened Items

  datatype Entry = Entry(path: string, items: seq<Item>)

  type Registry = seq<Entry>

  /** A discovered concrete item type: the path of its attribute, if it has
      one, and the instance its parameterless constructor makes, or None
      when creating the instance throws. */
  datatype Candidate = Candidate(attribute: Option<string>, instance: Option<Item>)

  /** Creating an instance threw; the build stops at that candidate. */
  datatype BuildError = InstantiationFailed(index: nat)

  /** The keys in enumeration order. */
  function Keys(reg: Registry): seq<string>
  {
    if |reg| == 0 then [] else [reg[0].path] + Keys(reg[1..])
  }

  /** The list stored under a key (the first entry with that key). */
  function Lookup(reg: Registry, key: string): Option<seq<Item>>
  {
    if |reg| == 0 then None
    else if reg[0].path == key then Some(reg[0].items)
    else Lookup(reg[1..], key)
  }

  /** The items stored under a key, none when the key is absent. */
  function ItemsAt(reg: Registry, key: string): seq<Item>
  {
    match Lookup(reg, key)
    case Some(items) => items
    case None => []
  }

  predicate DistinctKeys(reg: Registry)
  {
    forall i, j :: 0 <= i < j < |reg| ==> reg[i].path != reg[j].path
  }

  /** `if (!ContainsKey(key)) Add(key, new List())` */
  function WithKey(reg: Registry, key: string): Registry
  {
    if key in Keys(reg) then reg else reg + [Entry(key, [])]
  }

  /** `[key].Add(item)`: appends to the list of every entry with that key
      (there is exactly one in a registry with distinct keys). */
  function AppendTo(reg: Registry, key: string, item: Item): Registry
  {
    if |reg| == 0 then []
    else
      (if reg[0].path == key then [Entry(key, reg[0].items + [item])] else [reg[0]])
      + AppendTo(reg[1..], key, item)
  }

  /** The initial registry: only the root, with no items. */
  const Empty: Registry := [Entry("", [])]

  /** The registry build over the candidates in discovery order, one
      candidate at a time: unattributed candidates are skipped, an
      attributed one is instantiated and appended to the list of its path. */
  function Build(cands: seq<Candidate>): Result<Registry, BuildError>
    decreases |cands|
  {
    if |cands| == 0 then Success(Empty)
    else
      var prev := Build(cands[..|cands| - 1]);
      var c := cands[|cands| - 1];
      if prev.Failure? || c.attribute.None? then prev
      else if c.instance.None? then Failure(InstantiationFailed(|cands| - 1))
      else Success(AppendTo(WithKey(prev.value, c.attribute.value), c.attribute.value, c.instance.value))
  }

  /** Registry.Initialize: the loop over the discovered types. */
  method Initialize(cands: seq<Candidate>) returns (r: Result<Registry, BuildError>)
    ensures r == Build(cands)
  {
    var allItems := Empty;
    var i := 0;
    while i < |cands|
      invariant 0 <= i <= |cands|
      invariant Build(cands[..i]) == Success(allItems)
    {
      assert cands[..i + 1][..i] == cands[..i];
      var c := cands[i];
      if c.attribute.None? {
        i := i + 1;
        continue;
      }
      if c.instance.None? {
        BuildFailureStays(cands, i + 1);
        return Failure(InstantiationFailed(i));
      }
      var path := c.attribute.value;
      if path !in Keys(allItems) {
        allItems := allItems + [Entry(path, [])];
      }
      allItems := AppendTo(allItems, path, c.instance.value);
      i := i + 1;
    }
    assert cands[..|cands|] == cands;
    r := Success(allItems);
  }

  // ---------------------------------------------------------------------
  // Reference definitions of what the build yields

  /** The paths of the attributed candidates, in discovery order. */
  function DeclaredPaths(cands: seq<Candidate>): seq<string>
    decreases |cands|
  {
    if |cands| == 0 then []
    else
      var c := cands[|cands| - 1];
      DeclaredPaths(cands[..|cands| - 1]) + (if c.attribute.Some? then [c.attribute.value] else [])
  }

  /** The instances of the candidates that declare `path`, in discovery order. */
  function Declared(cands: seq<Candidate>, path: string): seq<Item>
    decreases |cands|
  {
    if |cands| == 0 then []
    else
      var c := cands[|cands| - 1];
      Declared(cands[..|cands| - 1], path)
      + (if c.attribute == Some(path) && c.instance.Some? then [c.instance.value] else [])
  }

  /** The first occurrence of each element, in order. */
  function Dedup(s: seq<string>): seq<string>
    decreases |s|
  {
    if |s| == 0 then []
    else
      var d := Dedup(s[..|s| - 1]);
      if s[|s| - 1] in d then d else d + [s[|s| - 1]]
  }

  /** An attributed candidate that cannot be instantiated. */
  predicate FailsAt(cands: seq<Candidate>, i: int)
  {
    0 <= i < |cands| && cands[i].attribute.Some? && cands[i].instance.None?
  }

  // ---------------------------------------------------------------------
  // Lemmas about the registry operations

  lemma {:induction false} DeclaredUndeclared(cands: seq<Candidate>, path: string)
    requires path !in DeclaredPaths(cands)
    ensures Declared(cands, path) == []
    decreases |cands|
  {
    if |cands| > 0 {
      DeclaredUndeclared(cands[..|cands| - 1], path);
    }
  }

  lemma {:induction false} LookupIffKey(reg: Registry, key: string)
    ensures Lookup(reg, key).Some? <==> key in Keys(reg)
  {
    if |reg| > 0 {
      LookupIffKey(reg[1..], key);
    }
  }

  lemma {:induction false} KeysLength(reg: Registry)
    ensures |Keys(reg)| == |reg|
    ensures forall i :: 0 <= i < |reg| ==> Keys(reg)[i] == reg[i].path
  {
    if |reg| > 0 {
      KeysLength(reg[1..]);
    }
  }

  lemma {:induction false} KeysSnoc(reg: Registry, e: Entry)
    ensures Keys(reg + [e]) == Keys(reg) + [e.path]
  {
    if |reg| == 0 {
      assert reg + [e] == [e];
    } else {
      assert (reg + [e])[1..] == reg[1..] + [e];
      KeysSnoc(reg[1..], e);
    }
  }

  lemma {:induction false} LookupSnoc(reg: Registry, e: Entry, key: string)
    ensures Lookup(reg + [e], key) ==
            if key in Keys(reg) then Lookup(reg, key)
            else if key == e.path then Some(e.items)
            else None
  {
    if |reg| == 0 {
      assert reg + [e] == [e];
    } else {
      assert (reg + [e])[1..] == reg[1..] + [e];
      LookupSnoc(reg[1..], e, key);
    }
  }

  lemma {:induction false} AppendToKeys(reg: Registry, key: string, item: Item)
    ensures Keys(AppendTo(reg, key, item)) == Keys(reg)
  {
    if |reg| > 0 {
      AppendToKeys(reg[1..], key, item);
    }
  }

  /** Appending changes the list of that key only, by one item at its end. */
  lemma {:induction false} AppendToLookup(reg: Registry, key: string, item: Item, q: string)
    ensures Lookup(AppendTo(reg, key, item), q) ==
            if q == key && Lookup(reg, key).Some? then Some(Lookup(reg, key).value + [item])
            else Lookup(reg, q)
  {
    if |reg| > 0 {
      AppendToLookup(reg[1..], key, item, q);
    }
  }

  lemma DistinctKeysIff(reg: Registry)
    ensures DistinctKeys(reg) <==> forall i, j :: 0 <= i < j < |Keys(reg)| ==> Keys(reg)[i] != Keys(reg)[j]
  {
    KeysLength(reg);
  }

  lemma {:induction false} DedupFacts(s: seq<string>)
    ensures forall x :: x in Dedup(s) <==> x in s
    ensures forall i, j :: 0 <= i < j < |Dedup(s)| ==> Dedup(s)[i] != Dedup(s)[j]
    decreases |s|
  {
    if |s| > 0 {
      DedupFacts(s[..|s| - 1]);
      assert s == s[..|s| - 1] + [s[|s| - 1]];
    }
  }

  // ---------------------------------------------------------------------
  // What the build yields

  /** Once the build has failed on a prefix, it fails with the same error. */
  lemma {:induction false} BuildFailureStays(cands: seq<Candidate>, k: nat)
    requires k <= |cands|
    requires Build(cands[..k]).Failure?
    ensures Build(cands) == Build(cands[..k])
    decreases |cands| - k
  {
    if k < |cands| {
      assert cands[..k + 1][..k] == cands[..k];
      assert Build(cands[..k + 1]) == Build(cands[..k]);
      BuildFailureStays(cands, k + 1);
    } else {
      assert cands[..k] == cands;
    }
  }

  /** The build fails exactly when some attributed candidate cannot be
      instantiated, and then it reports the first such candidate. */
  lemma {:induction false} BuildFailsIff(cands: seq<Candidate>)
    ensures Build(cands).Failure? <==> exists i :: FailsAt(cands, i)
    ensures Build(cands).Failure? ==>
            FailsAt(cands, Build(cands).error.index) &&
            forall i :: 0 <= i < Build(cands).error.index ==> !FailsAt(cands, i)
    decreases |cands|
  {
    if |cands| > 0 {
      var n := |cands| - 1;
      var pre := cands[..n];
      BuildFailsIff(pre);
      assert forall i :: 0 <= i < n ==> (FailsAt(cands, i) <==> FailsAt(pre, i));
      if Build(pre).Failure? {
        var i0 := Build(pre).error.index;
        assert FailsAt(cands, i0);
      } else if FailsAt(cands, n) {
        assert Build(cands).error.index == n;
      } else {
        forall i | FailsAt(cands, i)
          ensures i == n || FailsAt(pre, i)
        {
        }
      }
    }
  }

  /** A successful build: the root key comes first and is always present,
      the keys are the root and the declared paths without repetition in
      order of first declaration, and each key holds exactly the instances
      of the candidates that declare it, in discovery order. */
  lemma {:induction false} BuildContents(cands: seq<Candidate>)
    requires Build(cands).Success?
    ensures Keys(Build(cands).value) == Dedup([""] + DeclaredPaths(cands))
    ensures DistinctKeys(Build(cands).value)
    ensures Build(cands).value[0].path == ""
    ensures forall p :: Lookup(Build(cands).value, p) ==
                        if p == "" || p in DeclaredPaths(cands) then Some(Declared(cands, p)) else None
    decreases |cands|
  {
    var reg := Build(cands).value;
    if |cands| == 0 {
      assert Dedup([""]) == Dedup([""][..0]) + [""];
    } else {
      var n := |cands| - 1;
      var pre := cands[..n];
      var c := cands[n];
      BuildContents(pre);
      var prev := Build(pre).value;
      assert Build(pre).Success?;
      if c.attribute.None? {
        assert DeclaredPaths(cands) == DeclaredPaths(pre);
        forall p ensures Declared(cands, p) == Declared(pre, p) { }
      } else {
        var path := c.attribute.value;
        var item := c.instance.value;
        var withKey := WithKey(prev, path);
        assert reg == AppendTo(withKey, path, item);
        var paths := [""] + DeclaredPaths(cands);
        assert paths == [""] + DeclaredPaths(pre) + [path];
        assert paths[..|paths| - 1] == [""] + DeclaredPaths(pre);
        DedupFacts([""] + DeclaredPaths(pre));
        // keys
        AppendToKeys(withKey, path, item);
        if path !in Keys(prev) {
          KeysSnoc(prev, Entry(path, []));
        }
        assert Keys(reg) == Dedup(paths);
        // distinct keys
        DistinctKeysIff(prev);
        DistinctKeysIff(reg);
        DedupFacts(paths);
        // lists
        assert DeclaredPaths(cands) == DeclaredPaths(pre) + [path];
        LookupIffKey(prev, path);
        forall p
          ensures Lookup(reg, p) ==
                  if p == "" || p in DeclaredPaths(cands) then Some(Declared(cands, p)) else None
        {
          AppendToLookup(withKey, path, item, p);
          if path !in Keys(prev) {
            LookupSnoc(prev, Entry(path, []), p);
          }
          if p == path {
            if path !in Keys(prev) {
              DeclaredUndeclared(pre, path);
            }
          } else {
            assert Declared(cands, p) == Declared(pre, p);
            assert Lookup(withKey, p) == Lookup(prev, p) by {
              if path !in Keys(prev) {
                LookupIffKey(prev, p);
              }
            }
          }
        }
        // root first
        KeysLength(prev);
        KeysLength(reg);
        assert |prev| > 0;
        assert Keys(reg)[0] == Keys(prev)[0];
      }
    }
  }

  /** Each attributed candidate contributes exactly one instance: the lists
      together hold as many items as there are attributed candidates. */
  function TotalItems(reg: Registry): nat
  {
    if |reg| == 0 then 0 else |reg[0].items| + TotalItems(reg[1..])
  }

  lemma {:induction false} AppendToTotal(reg: Registry, key: string, item: Item)
    requires DistinctKeys(reg)
    requires key in Keys(reg)
    ensures TotalItems(AppendTo(reg, key, item)) == TotalItems(reg) + 1
  {
    if reg[0].path == key {
      assert key !in Keys(reg[1..]) by {
        KeysLength(reg);
        KeysLength(reg[1..]);
      }
      AppendToNoKey(reg[1..], key, item);
    } else {
      AppendToTotal(reg[1..], key, item);
    }
  }

  lemma {:induction false} AppendToNoKey(reg: Registry, key: string, item: Item)
    requires key !in Keys(reg)
    ensures AppendTo(reg, key, item) == reg
  {
    if |reg| > 0 {
      AppendToNoKey(reg[1..], key, item);
    }
  }

  lemma {:induction false} TotalSnoc(reg: Registry, e: Entry)
    ensures TotalItems(reg + [e]) == TotalItems(reg) + |e.items|
  {
    if |reg| == 0 {
      assert reg + [e] == [e];
    } else {
      assert (reg + [e])[1..] == reg[1..] + [e];
      TotalSnoc(reg[1..], e);
    }
  }

  lemma {:induction false} BuildTotal(cands: seq<Candidate>)
    requires Build(cands).Success?
    ensures TotalItems(Build(cands).value) == |DeclaredPaths(cands)|
    decreases |cands|
  {
    if |cands| > 0 {
      var n := |cands| - 1;
      var pre := cands[..n];
      var c := cands[n];
      BuildTotal(pre);
      if c.attribute.Some? {
        var prev := Build(pre).value;
        var path := c.attribute.value;
        BuildContents(pre);
        DistinctKeysIff(prev);
        if path !in Keys(prev) {
          TotalSnoc(prev, Entry(path, []));
          KeysSnoc(prev, Entry(path, []));
          KeysLength(prev);
          KeysLength(prev + [Entry(path, [])]);
        }
        DistinctKeysIff(WithKey(prev, path));
        AppendToTotal(WithKey(prev, path), path, c.instance.value);
      }
    }
  }
}
