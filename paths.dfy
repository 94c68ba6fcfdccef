/** Folder paths: '/'-delimited strings, the root being the empty string.
    These are the string operations the menu performs on paths
    (String.Split('/'), String.Join('/', ...), String.Contains, Last). */
module Paths {

  const Separator: char := '/'

  /** String.Split('/') with no options: every separator ends a segment,
      so empty segments are kept and the result is never empty. */
  function Split(s: string): (r: seq<string>)
    ensures |r| >= 1
  {
    if |s| == 0 then [""]
    else
      var rest := Split(s[1..]);
      if s[0] == Separator then [""] + rest
      else [[s[0]] + rest[0]] + rest[1..]
  }

  /** String.Join('/', segs): the segments with a separator between each two. */
  function Join(segs: seq<string>): string
  {
    if |segs| == 0 then ""
    else if |segs| == 1 then segs[0]
    else segs[0] + [Separator] + Join(segs[1..])
  }

  /** Number of separators in s. */
  function SlashCount(s: string): nat
  {
    if |s| == 0 then 0
    else (if s[0] == Separator then 1 else 0) + SlashCount(s[1..])
  }

  /** Ordinal substring test, String.Contains(needle). */
  predicate Contains(hay: string, needle: string)
  {
    needle <= hay || (|hay| > 0 && Contains(hay[1..], needle))
  }

  /** Folder depth as the navigator computes it: 0 for the root, otherwise
      the number of segments that Split yields. */
  function Depth(path: string): nat
  {
    if |path| == 0 then 0 else |Split(path)|
  }

  /** Last segment, path.Split('/').Last(). */
  function Last(path: string): string
  {
    var segs := Split(path);
    segs[|segs| - 1]
  }

  /** The path with its last segment dropped:
      String.Join('/', path.Split('/').SkipLast(1)). */
  function Parent(path: string): string
  {
    var segs := Split(path);
    Join(segs[..|segs| - 1])
  }

  // ---------------------------------------------------------------------
  // Split and Join

  lemma {:induction false} SplitLength(s: string)
    ensures |Split(s)| == SlashCount(s) + 1
  {
    if |s| > 0 {
      SplitLength(s[1..]);
    }
  }

  lemma {:induction false} SplitSegmentsHaveNoSeparator(s: string)
    ensures forall i :: 0 <= i < |Split(s)| ==> Separator !in Split(s)[i]
  {
    if |s| > 0 {
      SplitSegmentsHaveNoSeparator(s[1..]);
      var rest := Split(s[1..]);
      if s[0] != Separator {
        assert Separator !in rest[0];
        assert Separator !in [s[0]] + rest[0];
      }
    }
  }

  /** A string without separator is a single segment. */
  lemma {:induction false} SplitNoSeparator(s: string)
    requires Separator !in s
    ensures Split(s) == [s]
  {
    if |s| > 0 {
      assert forall c :: c in s[1..] ==> c in s;
      SplitNoSeparator(s[1..]);
      assert s == [s[0]] + s[1..];
    }
  }

  /** Splitting at a separator splits the segment lists too. */
  lemma {:induction false} SplitAround(a: string, b: string)
    ensures Split(a + [Separator] + b) == Split(a) + Split(b)
  {
    if |a| == 0 {
      assert a + [Separator] + b == [Separator] + b;
      assert ([Separator] + b)[1..] == b;
    } else {
      assert (a + [Separator] + b)[1..] == a[1..] + [Separator] + b;
      SplitAround(a[1..], b);
    }
  }

  lemma {:induction false} JoinSnoc(segs: seq<string>, x: string)
    requires |segs| >= 1
    ensures Join(segs + [x]) == Join(segs) + [Separator] + x
  {
    if |segs| == 1 {
      assert (segs + [x])[1..] == [x];
    } else {
      assert (segs + [x])[1..] == segs[1..] + [x];
      JoinSnoc(segs[1..], x);
    }
  }

  /** Join undoes Split. */
  lemma {:induction false} JoinSplit(s: string)
    ensures Join(Split(s)) == s
  {
    if |s| > 0 {
      JoinSplit(s[1..]);
      var rest := Split(s[1..]);
      if s[0] == Separator {
        assert Split(s) == [""] + rest;
        assert ([""] + rest)[1..] == rest;
        assert [s[0]] + s[1..] == s;
      } else {
        var r := Split(s);
        assert r == [[s[0]] + rest[0]] + rest[1..];
        if |rest| == 1 {
          assert s == [s[0]] + s[1..];
        } else {
          assert rest == [rest[0]] + rest[1..];
          assert Join(rest) == rest[0] + [Separator] + Join(rest[1..]);
          assert r[1..] == rest[1..];
          assert s == [s[0]] + s[1..];
        }
      }
    }
  }

  /** Split undoes Join for segments that hold no separator. */
  lemma {:induction false} SplitJoin(segs: seq<string>)
    requires |segs| >= 1
    requires forall i :: 0 <= i < |segs| ==> Separator !in segs[i]
    ensures Split(Join(segs)) == segs
  {
    if |segs| == 1 {
      SplitNoSeparator(segs[0]);
    } else {
      SplitJoin(segs[1..]);
      SplitNoSeparator(segs[0]);
      SplitAround(segs[0], Join(segs[1..]));
      assert segs == [segs[0]] + segs[1..];
    }
  }

  // ---------------------------------------------------------------------
  // Depth, Last and Parent

  /** Depth counts the segments of a non-root path. */
  lemma DepthCountsSegments(path: string)
    ensures path == "" ==> Depth(path) == 0
    ensures path != "" ==> Depth(path) == SlashCount(path) + 1
  {
    SplitLength(path);
  }

  /** A path with a separator is its parent, a separator and its last segment. */
  lemma ParentAndLast(path: string)
    requires Separator in path
    ensures Separator !in Last(path)
    ensures Parent(path) + [Separator] + Last(path) == path
  {
    var segs := Split(path);
    SplitSegmentsHaveNoSeparator(path);
    SplitLength(path);
    if SlashCount(path) == 0 {
      NoSlashCount(path);
      assert false;
    }
    assert segs == segs[..|segs| - 1] + [segs[|segs| - 1]];
    JoinSnoc(segs[..|segs| - 1], segs[|segs| - 1]);
    JoinSplit(path);
  }

  /** A single-segment path has the root as parent and is its own last segment. */
  lemma ParentOfSingleSegment(path: string)
    requires Separator !in path
    ensures Parent(path) == ""
    ensures Last(path) == path
  {
    SplitNoSeparator(path);
  }

  /** Appending a segment to a non-root path goes one level down. */
  lemma ChildPath(path: string, name: string)
    requires path != ""
    requires Separator !in name
    ensures Parent(path + [Separator] + name) == path
    ensures Last(path + [Separator] + name) == name
    ensures Depth(path + [Separator] + name) == Depth(path) + 1
  {
    var child := path + [Separator] + name;
    SplitAround(path, name);
    SplitNoSeparator(name);
    var segs := Split(child);
    assert segs == Split(path) + [name];
    assert segs[..|segs| - 1] == Split(path);
    JoinSplit(path);
  }

  lemma {:induction false} NoSlashCount(s: string)
    requires SlashCount(s) == 0
    ensures Separator !in s
  {
    if |s| > 0 {
      NoSlashCount(s[1..]);
      assert s == [s[0]] + s[1..];
    }
  }

  lemma {:induction false} SlashCountZero(s: string)
    requires Separator !in s
    ensures SlashCount(s) == 0
  {
    if |s| > 0 {
      assert s[1..] <= s[1..];
      assert forall c :: c in s[1..] ==> c in s;
      SlashCountZero(s[1..]);
    }
  }

  /** A path is a single segment exactly when it holds no separator. */
  lemma SingleSegmentIff(s: string)
    ensures |Split(s)| == 1 <==> Separator !in s
  {
    SplitLength(s);
    if Separator in s {
      if SlashCount(s) == 0 {
        NoSlashCount(s);
      }
    } else {
      SlashCountZero(s);
    }
  }

  // ---------------------------------------------------------------------
  // Contains

  /** The needle occurs in the haystack at position i. */
  predicate OccursAt(hay: string, needle: string, i: int)
  {
    0 <= i && i + |needle| <= |hay| && hay[i..i + |needle|] == needle
  }

  lemma OccursAtShift(hay: string, needle: string, i: int)
    requires |hay| > 0 && i > 0
    ensures OccursAt(hay, needle, i) <==> OccursAt(hay[1..], needle, i - 1)
  {
    if 0 <= i && i + |needle| <= |hay| {
      assert hay[1..][i - 1..i - 1 + |needle|] == hay[i..i + |needle|];
    }
  }

  /** Contains agrees with the reference definition of a substring:
      some window of the haystack equals the needle. */
  lemma {:induction false} ContainsIff(hay: string, needle: string)
    ensures Contains(hay, needle) <==> exists i :: OccursAt(hay, needle, i)
  {
    assert OccursAt(hay, needle, 0) <==> needle <= hay;
    if |hay| == 0 {
      assert forall i :: OccursAt(hay, needle, i) ==> i == 0;
    } else {
      ContainsIff(hay[1..], needle);
      forall i | i > 0
        ensures OccursAt(hay, needle, i) <==> OccursAt(hay[1..], needle, i - 1)
      {
        OccursAtShift(hay, needle, i);
      }
      if Contains(hay[1..], needle) {
        var j :| OccursAt(hay[1..], needle, j);
        assert OccursAt(hay, needle, j + 1);
      }
      if i :| OccursAt(hay, needle, i) {
        if i > 0 {
          assert OccursAt(hay[1..], needle, i - 1);
        }
      }
    }
  }

  /** Every string contains the empty string and each of its prefixes. */
  lemma ContainsPrefix(hay: string, prefix: string)
    requires prefix <= hay
    ensures Contains(hay, prefix)
  {
  }
}
