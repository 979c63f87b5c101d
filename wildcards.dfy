/** The wildcard path expander: `GetAllMatchingPaths` and
    `GetAllMatchingPathsInternal`. A pattern is split at the directory
    separator; the segments before the first one holding `*` or `?` are taken
    literally, that segment is listed in the filesystem, and the rest of the
    pattern is expanded again under every matching directory. */
module Wildcards {

  import opened Strings
  import opened Paths

  predicate HasGlob(segment: string)
  {
    '*' in segment || '?' in segment
  }

  /** Index of the first segment holding a wildcard, or `|parts|`. */
  function FirstGlob(parts: seq<string>): (i: nat)
    ensures i <= |parts|
    ensures i < |parts| ==> HasGlob(parts[i])
    ensures forall j :: 0 <= j < i ==> !HasGlob(parts[j])
    decreases |parts|
  {
    if parts == [] then 0
    else if HasGlob(parts[0]) then 0
    else 1 + FirstGlob(parts[1..])
  }

  /** `GetAllMatchingPaths(pattern)`: the first segment (the drive) must be
      literal; the rest is expanded under it. */
  function GetAllMatchingPaths(pattern: string, fs: FileSystem): (r: seq<string>)
    ensures forall p :: p in r ==> FileExists(fs, p) || DirExists(fs, p)
    ensures forall p :: p in r ==> StartsWith(p, TakeUntil(pattern, Sep) + [Sep])
  {
    var parts := Split(pattern, Sep);
    SplitHead(pattern, Sep);
    if HasGlob(parts[0]) then []
    else MatchingPathsInternal(Join(parts[1..], Sep), parts[0], fs)
  }

  /** A wildcard in the first segment (the drive) yields nothing: the root
      is never listed. */
  lemma GlobInDriveYieldsNothing(pattern: string, fs: FileSystem)
    requires HasGlob(TakeUntil(pattern, Sep))
    ensures GetAllMatchingPaths(pattern, fs) == []
  {
    SplitHead(pattern, Sep);
  }

  /** A pattern without wildcards is probed as the one path `root\pattern`:
      the result is that path if it exists and nothing otherwise. */
  lemma LiteralPatternYieldsItself(pattern: string, root: string, fs: FileSystem)
    requires '*' !in pattern && '?' !in pattern
    ensures var absolute := root + [Sep] + pattern;
            MatchingPathsInternal(pattern, root, fs)
            == if FileExists(fs, absolute) || DirExists(fs, absolute) then [absolute] else []
  {
    var parts := Split(pattern, Sep);
    SplitPiecesFrom(pattern, Sep, '*');
    SplitPiecesFrom(pattern, Sep, '?');
    assert FirstGlob(parts) == |parts|;
    JoinSplit(pattern, Sep);
  }

  /** A full path without wildcards comes back as itself exactly when it
      exists. */
  lemma LiteralPathYieldsItself(pattern: string, fs: FileSystem)
    requires '*' !in pattern && '?' !in pattern && Sep in pattern
    ensures GetAllMatchingPaths(pattern, fs)
            == if FileExists(fs, pattern) || DirExists(fs, pattern) then [pattern] else []
  {
    var parts := Split(pattern, Sep);
    SplitPiecesFrom(pattern, Sep, '*');
    SplitPiecesFrom(pattern, Sep, '?');
    SplitShape(pattern, Sep);
    JoinSplit(pattern, Sep);
    assert !HasGlob(parts[0]);
    if |parts| == 1 {
      assert false;
    }
    JoinAt(parts, 1, Sep);
    assert parts[..1] == [parts[0]];
    var rest := Join(parts[1..], Sep);
    assert '*' !in rest && '?' !in rest by {
      assert pattern == parts[0] + [Sep] + rest;
      assert forall j :: 0 <= j < |rest| ==> rest[j] == pattern[|parts[0]| + 1 + j];
    }
    LiteralPatternYieldsItself(rest, parts[0], fs);
  }

  /** The directory that is listed for the first wildcard segment. */
  function GlobParent(pattern: string, root: string): string
  {
    var parts := Split(pattern, Sep);
    root + [Sep] + Join(parts[..FirstGlob(parts)], Sep)
  }

  /** When the pattern holds a wildcard, every result lies under the directory
      listed for the first wildcard segment, and nothing is found when that
      directory does not exist. */
  lemma {:induction false} ResultsUnderGlobParent(pattern: string, root: string, fs: FileSystem)
    requires '*' in pattern || '?' in pattern
    ensures var r := MatchingPathsInternal(pattern, root, fs);
            && (forall p :: p in r ==> StartsWith(p, GlobParent(pattern, root)))
            && (!DirExists(fs, GlobParent(pattern, root)) ==> r == [])
  {
    var parts := Split(pattern, Sep);
    var i := FirstGlob(parts);
    if i == |parts| {
      if '*' in pattern {
        SplitPiecesCover(pattern, Sep, '*');
      } else {
        SplitPiecesCover(pattern, Sep, '?');
      }
      assert false;
    }
    var combined := GlobParent(pattern, root);
    var r := MatchingPathsInternal(pattern, root, fs);
    if DirExists(fs, combined) {
      forall p | p in r ensures StartsWith(p, combined) {
        if i == |parts| - 1 {
          StartsWithTrans(p, EntryPrefix(combined), combined);
        } else {
          var dirs := EnumerateDirectories(fs, combined, parts[i]);
          JoinSplit(pattern, Sep);
          JoinAt(parts, i + 1, Sep);
          var d :| d in dirs && StartsWith(p, d);
          StartsWithTrans(d, EntryPrefix(combined), combined);
          StartsWithTrans(p, d, combined);
        }
      }
    }
  }

  /** `GetAllMatchingPathsInternal(pattern, root)`. Every result exists and
      lies under `root`. */
  function MatchingPathsInternal(pattern: string, root: string, fs: FileSystem): (r: seq<string>)
    ensures forall p :: p in r ==> FileExists(fs, p) || DirExists(fs, p)
    ensures forall p :: p in r ==> StartsWith(p, root + [Sep])
    decreases |pattern|, 0
  {
    var parts := Split(pattern, Sep);
    var i := FirstGlob(parts);
    if i == |parts| then
      var absolute := root + [Sep] + Join(parts, Sep);
      if FileExists(fs, absolute) || DirExists(fs, absolute) then [absolute] else []
    else
      var combined := root + [Sep] + Join(parts[..i], Sep);
      if !DirExists(fs, combined) then []
      else if i == |parts| - 1 then
        ListedUnder(fs.files, combined, parts[i], root);
        ListedUnder(fs.dirs, combined, parts[i], root);
        EnumerateFiles(fs, combined, parts[i]) + EnumerateDirectories(fs, combined, parts[i])
      else
        JoinSplit(pattern, Sep);
        JoinAt(parts, i + 1, Sep);
        var dirs := EnumerateDirectories(fs, combined, parts[i]);
        ListedUnder(fs.dirs, combined, parts[i], root);
        var r := MatchingPathsUnder(dirs, Join(parts[i + 1..], Sep), fs);
        assert forall p :: p in r ==> StartsWith(p, root + [Sep]) by {
          forall p | p in r ensures StartsWith(p, root + [Sep]) {
            var d :| d in dirs && StartsWith(p, d);
            StartsWithTrans(p, d, root + [Sep]);
          }
        }
        r
  }

  /** The expansions of `pattern` under each directory of `dirs`, in order
      (the `SelectMany` of the source). */
  function MatchingPathsUnder(dirs: seq<string>, pattern: string, fs: FileSystem): (r: seq<string>)
    ensures forall p :: p in r ==> FileExists(fs, p) || DirExists(fs, p)
    ensures forall p :: p in r ==> exists d :: d in dirs && StartsWith(p, d)
    decreases |pattern|, |dirs|
  {
    if dirs == [] then []
    else
      var here := MatchingPathsInternal(pattern, dirs[0], fs);
      assert forall p :: p in here ==> StartsWith(p, dirs[0]) by {
        forall p | p in here ensures StartsWith(p, dirs[0]) {
          StartsWithTrans(p, dirs[0] + [Sep], dirs[0]);
        }
      }
      here + MatchingPathsUnder(dirs[1..], pattern, fs)
  }

  /** Every entry listed inside `combined` lies under `root + [Sep]` when
      `combined` does. */
  lemma ListedUnder(entries: seq<string>, combined: string, pattern: string, root: string)
    requires StartsWith(combined, root + [Sep])
    ensures forall p :: p in ListMatching(entries, combined, pattern) ==> StartsWith(p, root + [Sep])
  {
    forall p | p in ListMatching(entries, combined, pattern) ensures StartsWith(p, root + [Sep]) {
      StartsWithTrans(p, EntryPrefix(combined), combined);
      StartsWithTrans(p, combined, root + [Sep]);
    }
  }

  /** Membership in the `SelectMany`: exactly the expansions under one of the
      directories. */
  lemma {:induction false} UnderMembers(dirs: seq<string>, pattern: string, fs: FileSystem, p: string)
    ensures p in MatchingPathsUnder(dirs, pattern, fs) <==> exists d :: d in dirs && p in MatchingPathsInternal(pattern, d, fs)
    decreases |dirs|
  {
    if dirs != [] {
      UnderMembers(dirs[1..], pattern, fs, p);
      var here := MatchingPathsInternal(pattern, dirs[0], fs);
      assert MatchingPathsUnder(dirs, pattern, fs) == here + MatchingPathsUnder(dirs[1..], pattern, fs);
      if exists d :: d in dirs && p in MatchingPathsInternal(pattern, d, fs) {
        var d :| d in dirs && p in MatchingPathsInternal(pattern, d, fs);
        if d != dirs[0] {
          assert d in dirs[1..];
        }
      }
    }
  }

  /** The reference meaning of an expansion, one segment at a time: `p` is
      reached from `root` through the literal segments `lits` collected since
      the last wildcard and the segments `pats` still to match. A literal
      segment is collected; a wildcard segment lists the directory
      `root\lits` and takes an entry whose name matches, a directory to go
      on from unless it is the last segment; once the segments run out the
      path `root\lits` must exist. */
  predicate Expands(root: string, lits: seq<string>, pats: seq<string>, fs: FileSystem, p: string)
    decreases |pats|
  {
    if pats == [] then
      p == root + [Sep] + Join(lits, Sep) && (FileExists(fs, p) || DirExists(fs, p))
    else if !HasGlob(pats[0]) then
      Expands(root, lits + [pats[0]], pats[1..], fs, p)
    else
      var combined := root + [Sep] + Join(lits, Sep);
      DirExists(fs, combined)
      && if |pats| == 1 then ListedMatch(p, combined, pats[0]) && (FileExists(fs, p) || DirExists(fs, p))
         else exists d :: d in fs.dirs && ListedMatch(d, combined, pats[0]) && Expands(d, [], pats[1..], fs, p)
  }

  /** Literal segments before the first wildcard are only collected. */
  lemma {:induction false} LiteralSegments(root: string, lits: seq<string>, pats: seq<string>, k: nat, fs: FileSystem, p: string)
    requires k <= |pats| && forall j :: 0 <= j < k ==> !HasGlob(pats[j])
    ensures Expands(root, lits, pats, fs, p) <==> Expands(root, lits + pats[..k], pats[k..], fs, p)
    decreases k
  {
    if k == 0 {
      assert lits + pats[..0] == lits && pats[0..] == pats;
    } else {
      LiteralSegments(root, lits + [pats[0]], pats[1..], k - 1, fs, p);
      assert lits + [pats[0]] + pats[1..][..k - 1] == lits + pats[..k];
      assert pats[1..][k - 1..] == pats[k..];
    }
  }

  /** The pattern after the first wildcard segment is shorter than the
      pattern, and splitting it again gives back its segments. */
  lemma RestAfterGlob(pattern: string)
    requires FirstGlob(Split(pattern, Sep)) < |Split(pattern, Sep)| - 1
    ensures var parts := Split(pattern, Sep);
            var rest := Join(parts[FirstGlob(parts) + 1..], Sep);
            |rest| < |pattern| && Split(rest, Sep) == parts[FirstGlob(parts) + 1..]
  {
    var parts := Split(pattern, Sep);
    var i := FirstGlob(parts);
    JoinSplit(pattern, Sep);
    JoinAt(parts, i + 1, Sep);
    SplitShape(pattern, Sep);
    SplitJoin(parts[i + 1..], Sep);
  }

  /** Without a wildcard the one path `root\pattern` is probed. */
  lemma NoGlobCase(pattern: string, root: string, fs: FileSystem, p: string)
    requires FirstGlob(Split(pattern, Sep)) == |Split(pattern, Sep)|
    ensures p in MatchingPathsInternal(pattern, root, fs) <==> Expands(root, Split(pattern, Sep), [], fs, p)
  {
  }

  /** A wildcard in the last segment lists the files and the directories. */
  lemma GlobLastCase(pattern: string, root: string, fs: FileSystem, p: string)
    requires FirstGlob(Split(pattern, Sep)) == |Split(pattern, Sep)| - 1
    ensures var parts := Split(pattern, Sep);
            var i := FirstGlob(parts);
            p in MatchingPathsInternal(pattern, root, fs) <==> Expands(root, parts[..i], parts[i..], fs, p)
  {
    var parts := Split(pattern, Sep);
    var i := FirstGlob(parts);
    assert parts[i..] == [parts[i]];
  }

  /** A wildcard before the last segment goes on under every listed
      directory, given the meaning of the expansion under each of them. */
  lemma GlobMiddleCase(pattern: string, root: string, fs: FileSystem, p: string)
    requires FirstGlob(Split(pattern, Sep)) < |Split(pattern, Sep)| - 1
    requires var parts := Split(pattern, Sep);
             var i := FirstGlob(parts);
             var rest := Join(parts[i + 1..], Sep);
             forall d :: d in fs.dirs ==>
               (p in MatchingPathsInternal(rest, d, fs) <==> Expands(d, [], parts[i + 1..], fs, p))
    ensures var parts := Split(pattern, Sep);
            var i := FirstGlob(parts);
            p in MatchingPathsInternal(pattern, root, fs) <==> Expands(root, parts[..i], parts[i..], fs, p)
  {
    var parts := Split(pattern, Sep);
    var i := FirstGlob(parts);
    var combined := root + [Sep] + Join(parts[..i], Sep);
    assert parts[i..][0] == parts[i] && parts[i..][1..] == parts[i + 1..];
    if DirExists(fs, combined) {
      var rest := Join(parts[i + 1..], Sep);
      var dirs := EnumerateDirectories(fs, combined, parts[i]);
      UnderMembers(dirs, rest, fs, p);
    }
  }

  /** The expander yields exactly the paths the reference meaning reaches:
      every result is reached, and every reachable path is a result. */
  lemma {:induction false} InternalMeaning(pattern: string, root: string, fs: FileSystem, p: string)
    ensures p in MatchingPathsInternal(pattern, root, fs) <==> Expands(root, [], Split(pattern, Sep), fs, p)
    decreases |pattern|
  {
    var parts := Split(pattern, Sep);
    var i := FirstGlob(parts);
    LiteralSegments(root, [], parts, i, fs, p);
    assert [] + parts[..i] == parts[..i];
    if i == |parts| {
      assert parts[..i] == parts && parts[i..] == [];
      NoGlobCase(pattern, root, fs, p);
    } else if i == |parts| - 1 {
      GlobLastCase(pattern, root, fs, p);
    } else {
      RestAfterGlob(pattern);
      var rest := Join(parts[i + 1..], Sep);
      forall d | d in fs.dirs
        ensures p in MatchingPathsInternal(rest, d, fs) <==> Expands(d, [], parts[i + 1..], fs, p)
      {
        InternalMeaning(rest, d, fs, p);
      }
      GlobMiddleCase(pattern, root, fs, p);
    }
  }

  /** `GetAllMatchingPaths` yields exactly the paths reached from the literal
      first segment through the rest of the pattern, joined and split again
      as the source does. */
  lemma GetAllMatchingPathsMeaning(pattern: string, fs: FileSystem, p: string)
    ensures var parts := Split(pattern, Sep);
            p in GetAllMatchingPaths(pattern, fs)
            <==> !HasGlob(parts[0]) && Expands(parts[0], [], Split(Join(parts[1..], Sep), Sep), fs, p)
  {
    var parts := Split(pattern, Sep);
    if !HasGlob(parts[0]) {
      InternalMeaning(Join(parts[1..], Sep), parts[0], fs, p);
    }
  }
}
