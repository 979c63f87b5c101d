/** The abstract filesystem the resolver probes, and the `System.IO.Path`
    operations it uses. The filesystem is two ordered lists of path strings:
    the directories and the files that exist. Their order is the order in
    which a directory listing returns entries. Paths are compared literally. */
module Paths {

  import opened Wrappers
  import opened Strings

  /** `Path.DirectorySeparatorChar` on Windows. */
  const Sep: char := '\\'
  /** `Path.AltDirectorySeparatorChar`. */
  const AltSep: char := '/'
  /** `Path.VolumeSeparatorChar`. */
  const VolumeSep: char := ':'

  datatype FileSystem = FileSystem(dirs: seq<string>, files: seq<string>)

  /** `Directory.Exists`. */
  predicate DirExists(fs: FileSystem, p: string)
  {
    p in fs.dirs
  }

  /** `File.Exists`. */
  predicate FileExists(fs: FileSystem, p: string)
  {
    p in fs.files
  }

  predicate IsSep(c: char)
  {
    c == Sep || c == AltSep
  }

  /** `Path.IsPathRooted`: a leading separator or a drive letter. */
  predicate IsRooted(p: string)
  {
    (|p| >= 1 && IsSep(p[0])) || (|p| >= 2 && p[1] == VolumeSep)
  }

  /** `Path.Combine(a, b)` for arguments without invalid path characters. */
  function Combine(a: string, b: string): (r: string)
    ensures b == [] ==> r == a
    ensures a != [] && b != [] && !IsRooted(b) ==> r == a + b || r == a + [Sep] + b
    ensures a != [] && b != [] && !IsRooted(b) ==> (r == a + b <==> IsSep(a[|a| - 1]) || a[|a| - 1] == VolumeSep)
    ensures a != [] && b != [] && IsRooted(b) ==> r == b
    ensures a == [] ==> r == b
  {
    if b == [] then a
    else if a == [] then b
    else if IsRooted(b) then b
    else if IsSep(a[|a| - 1]) || a[|a| - 1] == VolumeSep then a + b
    else a + [Sep] + b
  }

  /** The characters that make `Path.Combine` of the .NET Framework throw
      an `ArgumentException`. */
  predicate IsInvalidPathChar(c: char)
  {
    c == '"' || c == '<' || c == '>' || c == '|' || c < ' '
  }

  predicate HasInvalidPathChars(p: string)
  {
    exists i :: 0 <= i < |p| && IsInvalidPathChar(p[i])
  }

  /** `Path.Combine(a, b)` including its argument check. */
  function CombineChecked(a: string, b: string): (r: Result<string>)
    ensures r.Thrown? <==> HasInvalidPathChars(a) || HasInvalidPathChars(b)
    ensures r.Ok? ==> r.value == Combine(a, b)
  {
    if HasInvalidPathChars(a) || HasInvalidPathChars(b) then Thrown else Ok(Combine(a, b))
  }

  /** Index of the last separator, or -1. */
  function LastSep(p: string): (i: int)
    ensures -1 <= i < |p|
    ensures i >= 0 ==> IsSep(p[i])
    ensures forall j :: i < j < |p| ==> !IsSep(p[j])
    decreases |p|
  {
    if p == [] then -1
    else if IsSep(p[|p| - 1]) then |p| - 1
    else LastSep(p[..|p| - 1])
  }

  /** Length of the root: 3 for a drive root such as `C:\`, 1 for a leading
      separator, 0 for a relative path. */
  function RootLength(p: string): nat
  {
    if |p| >= 3 && p[1] == VolumeSep && IsSep(p[2]) then 3
    else if |p| >= 1 && IsSep(p[0]) then 1
    else 0
  }

  /** No separator follows position `k` of `p`. */
  predicate NoSepAfter(p: string, k: int)
  {
    forall j :: k < j < |p| && 0 <= j ==> !IsSep(p[j])
  }

  /** `Path.GetDirectoryName` of a file path: everything before the last
      separator, or the drive root when that separator belongs to the root. */
  function ParentDir(p: string): (r: string)
    ensures StartsWith(p, r)
    ensures |r| < |p| || p == []
    ensures NoSepAfter(p, -1) ==> r == []
    ensures forall k :: 0 <= k < |p| && IsSep(p[k]) && NoSepAfter(p, k) ==>
              r == (if k < RootLength(p) < |p| then p[..RootLength(p)] else p[..k])
  {
    var i := LastSep(p);
    if i < 0 then []
    else if i < RootLength(p) && RootLength(p) < |p| then p[..RootLength(p)]
    else p[..i]
  }

  /** The `*`/`?` wildcard match of a directory-listing search pattern against
      an entry name, ignoring ASCII case. */
  predicate GlobMatch(pattern: string, name: string)
    decreases |pattern| + |name|
  {
    if pattern == [] then name == []
    else if pattern[0] == '*' then GlobMatch(pattern[1..], name) || (name != [] && GlobMatch(pattern, name[1..]))
    else name != [] && (pattern[0] == '?' || LowerChar(pattern[0]) == LowerChar(name[0]))
         && GlobMatch(pattern[1..], name[1..])
  }

  /** `*` alone matches every name. */
  lemma {:induction false} StarMatchesAll(name: string)
    ensures GlobMatch("*", name)
    decreases |name|
  {
    if name != [] {
      StarMatchesAll(name[1..]);
    }
  }

  /** A pattern without wildcards matches exactly the names equal to it up to case. */
  lemma {:induction false} LiteralPatternMatch(pattern: string, name: string)
    requires '*' !in pattern && '?' !in pattern
    ensures GlobMatch(pattern, name) <==> EqualsIgnoreCase(pattern, name)
    decreases |pattern|
  {
    if pattern == [] {
    } else if name == [] {
      assert Lower(name) == [];
    } else {
      LiteralPatternMatch(pattern[1..], name[1..]);
      assert Lower(pattern) == [LowerChar(pattern[0])] + Lower(pattern[1..]);
      assert Lower(name) == [LowerChar(name[0])] + Lower(name[1..]);
    }
  }

  /** What a listing of `dir` prefixes to entry names. */
  function EntryPrefix(dir: string): (r: string)
    ensures StartsWith(r, dir)
  {
    if dir != [] && (IsSep(dir[|dir| - 1]) || dir[|dir| - 1] == VolumeSep) then dir else dir + [Sep]
  }

  /** A single path segment: what a directory can list. */
  predicate IsEntryName(n: string)
  {
    n != [] && Sep !in n && AltSep !in n && VolumeSep !in n
  }

  /** `e` is an entry directly inside `dir` whose name matches `pattern`. */
  predicate ListedMatch(e: string, dir: string, pattern: string)
  {
    var prefix := EntryPrefix(dir);
    StartsWith(e, prefix) && IsEntryName(e[|prefix|..]) && GlobMatch(pattern, e[|prefix|..])
  }

  /** The entries of `entries` that lie directly inside `dir` and match
      `pattern`, in listing order. */
  function ListMatching(entries: seq<string>, dir: string, pattern: string): (r: seq<string>)
    ensures forall i :: 0 <= i < |r| ==> r[i] in entries && ListedMatch(r[i], dir, pattern)
    ensures forall e :: e in entries && ListedMatch(e, dir, pattern) ==> e in r
    decreases |entries|
  {
    if entries == [] then []
    else if ListedMatch(entries[0], dir, pattern) then [entries[0]] + ListMatching(entries[1..], dir, pattern)
    else ListMatching(entries[1..], dir, pattern)
  }

  /** `Directory.EnumerateFiles(dir, pattern, SearchOption.TopDirectoryOnly)`. */
  function EnumerateFiles(fs: FileSystem, dir: string, pattern: string): seq<string>
  {
    ListMatching(fs.files, dir, pattern)
  }

  /** `Directory.EnumerateDirectories(dir, pattern, SearchOption.TopDirectoryOnly)`. */
  function EnumerateDirectories(fs: FileSystem, dir: string, pattern: string): seq<string>
  {
    ListMatching(fs.dirs, dir, pattern)
  }
}
