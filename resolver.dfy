/** The directory existence resolver: `GetSaveFileViewReplacementDict`,
    `GetAvailableDirsFromSaveFileViewData`, `ReplaceCaseInsensitive` and
    `CheckActualFoldersExist`. Path templates from the companion plugin's
    per-game data are filtered by type, their tokens substituted, wildcards
    expanded, and the candidates reduced to existing directories. */
module Resolver {

  import opened Wrappers
  import opened Strings
  import opened Paths
  import opened Wildcards
  import opened Playnite

  datatype PathType = Save | Config

  /** One entry of the companion plugin's per-game data file. */
  datatype PathData = PathData(path: string, pathType: PathType)

  /** The special folders of the user and the machine, as
      `Environment.UserName` and `Environment.GetFolderPath` report them. */
  datatype SpecialFolders = SpecialFolders(
    userName: string,
    userProfile: string,
    myDocuments: string,
    applicationData: string,
    localApplicationData: string,
    commonDocuments: string,
    commonApplicationData: string,
    system: string,
    systemX86: string)

  /** Everything outside the plugin that a resolution reads: the special
      folders, the two installer values read from the registry (Steam's
      `InstallPath` and Ubisoft Connect's `InstallDir`, each absent when the
      key or value is missing or the read throws) and the filesystem. */
  datatype Machine = Machine(folders: SpecialFolders, steam: Option<string>, uplayInstallDir: Option<string>, fs: FileSystem)

  type Table = seq<(string, string)>

  /** Every token of a table is non-empty. */
  predicate ValidTable(table: Table)
  {
    forall i :: 0 <= i < |table| ==> table[i].0 != []
  }

  /** The tokens of a table are pairwise different, as dictionary keys are. */
  predicate DistinctTokens(table: Table)
  {
    forall i, j :: 0 <= i < j < |table| ==> table[i].0 != table[j].0
  }

  /** The token has a replacement in the table. */
  predicate HasToken(table: Table, token: string)
  {
    exists i :: 0 <= i < |table| && table[i].0 == token
  }

  const GameToken := "{{p|game}}"
  const SteamToken := "{{p|steam}}"
  const UplayToken := "{{p|uplay}}"

  /** The tokens whose values the source reads from the registry; a template
      holding one of them is never resolved. */
  const RegistryTokens: seq<string> := ["{{p|hkcu}}", "{{p|hklm}}", "{{p|wow64}}"]

  /** The tokens of the fixed part of the replacement table, in insertion order. */
  const FixedTokens: seq<string> :=
    [ "{{p|uid}}",
      "{{p|username}}",
      "{{p|userprofile}}",
      "{{p|userprofile\\documents}}",
      "{{p|userprofile\\appdata\\locallow}}",
      "{{p|appdata}}",
      "{{p|localappdata}}",
      "{{p|public}}",
      "{{p|allusersprofile}}",
      "{{p|programdata}}",
      "{{p|windir}}",
      "{{p|syswow64}}",
      "<code>" ]

  /** Their values, in the same order: a wildcard for the user identifier
      and for `<code>`, and otherwise the special folders; the LocalLow
      folder is the roaming application data folder with `Roaming` replaced,
      and the public folder is the parent of the common documents folder. */
  function FixedValues(f: SpecialFolders): seq<string>
  {
    [ "*",
      f.userName,
      f.userProfile,
      f.myDocuments,
      ReplaceAll(f.applicationData, "Roaming", "LocalLow", false),
      f.applicationData,
      f.localApplicationData,
      ParentDir(f.commonDocuments),
      f.commonApplicationData,
      f.commonApplicationData,
      f.system,
      f.systemX86,
      "*" ]
  }

  /** The fixed part of the replacement table. */
  function FixedTable(f: SpecialFolders): (t: Table)
    ensures |t| == 13
    ensures forall i :: 0 <= i < 13 ==> t[i].0 == FixedTokens[i] && t[i].1 == FixedValues(f)[i]
  {
    seq(13, i requires 0 <= i < 13 => (FixedTokens[i], FixedValues(f)[i]))
  }

  const DefaultUbisoftDirectory := "C:\\Program Files (x86)\\Ubisoft\\Ubisoft Game Launcher"
  const LauncherDirWithSep := "Ubisoft Game Launcher\\"
  const LauncherDir := "Ubisoft Game Launcher"

  /** Every `/` turned into `\`. */
  function SlashesToBackslashes(s: string): (r: string)
    ensures |r| == |s| && '/' !in r
    ensures forall i :: 0 <= i < |s| ==> r[i] == (if s[i] == '/' then Sep else s[i])
  {
    seq(|s|, i requires 0 <= i < |s| => if s[i] == '/' then Sep else s[i])
  }

  /** `GetUbisoftInstallationDirectory`: the registry's `InstallDir` with
      forward slashes made backslashes and the separator after
      `Ubisoft Game Launcher` dropped, or the default launcher directory when
      the registry gives nothing. */
  function UbisoftDirectory(installDir: Option<string>): (r: string)
    ensures installDir.None? ==> r == DefaultUbisoftDirectory
    ensures installDir.Some? ==> '/' !in r
    ensures r == [] <==> installDir == Some([])
  {
    match installDir
    case None => DefaultUbisoftDirectory
    case Some(v) =>
      var s := SlashesToBackslashes(v);
      ReplaceKeepsOut(s, LauncherDirWithSep, LauncherDir, false, '/');
      ReplaceAll(s, LauncherDirWithSep, LauncherDir, false)
  }

  /** A replacement brings in only characters of its input and of the
      replacement text. */
  lemma {:induction false} ReplaceKeepsOut(s: string, search: string, rep: string, ignoreCase: bool, c: char)
    requires search != [] && c !in s && c !in rep
    ensures c !in ReplaceAll(s, search, rep, ignoreCase)
    ensures rep != [] ==> (ReplaceAll(s, search, rep, ignoreCase) == [] <==> s == [])
    decreases |s|
  {
    if |s| >= |search| {
      if MatchesHere(s, search, ignoreCase) {
        ReplaceKeepsOut(s[|search|..], search, rep, ignoreCase, c);
      } else {
        ReplaceKeepsOut(s[1..], search, rep, ignoreCase, c);
      }
    }
  }

  /** A directory already free of forward slashes and of the separator after
      `Ubisoft Game Launcher` is taken as the registry gives it. */
  lemma UbisoftDirectoryKeepsClean(v: string)
    requires '/' !in v && !Contains(v, LauncherDirWithSep)
    ensures UbisoftDirectory(Some(v)) == v
  {
    var s := SlashesToBackslashes(v);
    assert s == v;
    ReplaceWithoutOccurrence(v, LauncherDirWithSep, LauncherDir, false);
  }

  /** An installer entry, present only when the lookup gave a non-empty path. */
  function InstallerEntry(token: string, path: Option<string>): Table
  {
    if path.Some? && path.value != [] then [(token, path.value)] else []
  }

  /** `GetSaveFileViewReplacementDict`: the fixed tokens, then Steam's and
      Ubisoft Connect's install directories when they are known. */
  function ReplacementTable(m: Machine): (t: Table)
    ensures ValidTable(t)
    ensures |t| >= 13 && t[..13] == FixedTable(m.folders)
  {
    InstallerTable(m.folders, m.steam, Some(UbisoftDirectory(m.uplayInstallDir)))
  }

  /** The fixed tokens followed by the installer entries for the two paths
      given. */
  function InstallerTable(f: SpecialFolders, steam: Option<string>, uplay: Option<string>): (t: Table)
    ensures ValidTable(t)
    ensures |t| >= 13 && t[..13] == FixedTable(f)
  {
    var t := FixedTable(f) + InstallerEntry(SteamToken, steam) + InstallerEntry(UplayToken, uplay);
    assert t[..13] == FixedTable(f);
    t
  }

  /** A cheap fingerprint of a token: its length and its fifth character. */
  function TokenKey(token: string): (int, char)
  {
    (|token|, if |token| > 4 then token[4] else ' ')
  }

  function Keys(t: Table): seq<(int, char)>
  {
    seq(|t|, i requires 0 <= i < |t| => TokenKey(t[i].0))
  }

  /** The fingerprints of the fixed tokens, in order. */
  const FixedKeys: seq<(int, char)> :=
    [(9, 'u'), (14, 'u'), (17, 'u'), (27, 'u'), (34, 'u'), (13, 'a'), (18, 'l'),
     (12, 'p'), (21, 'a'), (17, 'p'), (12, 'w'), (14, 's'), (6, 'e')]

  lemma FixedTokenKeys()
    ensures seq(13, i requires 0 <= i < 13 => TokenKey(FixedTokens[i])) == FixedKeys
  {
  }

  /** The fingerprints of the whole table. */
  lemma TableKeys(f: SpecialFolders, steam: Option<string>, uplay: Option<string>)
    ensures Keys(InstallerTable(f, steam, uplay)) == FixedKeys
              + (if steam.Some? && steam.value != [] then [(11, 's')] else [])
              + (if uplay.Some? && uplay.value != [] then [(11, 'u')] else [])
  {
    var ft := FixedTable(f);
    FixedTokenKeys();
    assert Keys(ft) == FixedKeys;
    var s := InstallerEntry(SteamToken, steam);
    var u := InstallerEntry(UplayToken, uplay);
    assert Keys(ft + s + u) == Keys(ft) + Keys(s) + Keys(u);
  }

  /** A token of the table has its fingerprint among the table's. */
  lemma KeyOfToken(t: Table, token: string)
    requires HasToken(t, token)
    ensures TokenKey(token) in Keys(t)
  {
    var i :| 0 <= i < |t| && t[i].0 == token;
    assert Keys(t)[i] == TokenKey(token);
  }

  predicate DistinctKeys(keys: seq<(int, char)>)
  {
    forall i, j :: 0 <= i < j < |keys| ==> keys[i] != keys[j]
  }

  lemma FixedKeysDistinct()
    ensures DistinctKeys(FixedKeys)
  {
  }

  lemma DistinctKeysAppend(a: seq<(int, char)>, b: seq<(int, char)>)
    requires DistinctKeys(a) && DistinctKeys(b)
    requires forall k :: k in b ==> k !in a
    ensures DistinctKeys(a + b)
  {
    var c := a + b;
    forall i, j | 0 <= i < j < |c| ensures c[i] != c[j] {
      if i < |a| && j >= |a| {
        assert c[j] in b;
        assert c[i] in a;
      }
    }
  }

  /** The tokens of the table are pairwise different, as dictionary keys are. */
  lemma ReplacementTokensDistinct(m: Machine)
    ensures DistinctTokens(ReplacementTable(m))
  {
    TableTokensDistinct(m.folders, m.steam, Some(UbisoftDirectory(m.uplayInstallDir)));
  }

  lemma TableTokensDistinct(f: SpecialFolders, steam: Option<string>, uplay: Option<string>)
    ensures DistinctTokens(InstallerTable(f, steam, uplay))
  {
    var t := InstallerTable(f, steam, uplay);
    var keys := Keys(t);
    TableKeys(f, steam, uplay);
    FixedKeysDistinct();
    var sk := if steam.Some? && steam.value != [] then [(11, 's')] else [];
    var uk := if uplay.Some? && uplay.value != [] then [(11, 'u')] else [];
    assert (11, 's') !in FixedKeys && (11, 'u') !in FixedKeys;
    DistinctKeysAppend(FixedKeys, sk);
    DistinctKeysAppend(FixedKeys + sk, uk);
    forall i, j | 0 <= i < j < |t| ensures t[i].0 != t[j].0 {
      assert keys[i] != keys[j];
    }
  }

  /** Steam's token is present exactly when its directory is known; Ubisoft
      Connect's whenever the registry does not give an empty directory, since
      a missing one falls back to the default launcher directory. */
  lemma ReplacementInstallerTokens(m: Machine)
    ensures HasToken(ReplacementTable(m), SteamToken) <==> m.steam.Some? && m.steam.value != []
    ensures HasToken(ReplacementTable(m), UplayToken) <==> m.uplayInstallDir != Some([])
  {
    TableInstallerTokens(m.folders, m.steam, Some(UbisoftDirectory(m.uplayInstallDir)));
  }

  lemma TableInstallerTokens(f: SpecialFolders, steam: Option<string>, uplay: Option<string>)
    ensures HasToken(InstallerTable(f, steam, uplay), SteamToken) <==> steam.Some? && steam.value != []
    ensures HasToken(InstallerTable(f, steam, uplay), UplayToken) <==> uplay.Some? && uplay.value != []
  {
    var t := InstallerTable(f, steam, uplay);
    TableKeys(f, steam, uplay);
    if steam.Some? && steam.value != [] {
      assert t[13].0 == SteamToken;
    } else {
      AbsentByKey(t, SteamToken);
    }
    if uplay.Some? && uplay.value != [] {
      assert t[|t| - 1].0 == UplayToken;
    } else {
      AbsentByKey(t, UplayToken);
    }
  }

  /** A token whose fingerprint the table lacks is not in the table. */
  lemma AbsentByKey(t: Table, token: string)
    requires TokenKey(token) !in Keys(t)
    ensures !HasToken(t, token)
  {
    if HasToken(t, token) {
      KeyOfToken(t, token);
    }
  }

  /** The table never holds `{{p|game}}` nor a registry token. */
  lemma ReplacementExcludedTokens(m: Machine)
    ensures !HasToken(ReplacementTable(m), GameToken)
    ensures forall i :: 0 <= i < |RegistryTokens| ==> !HasToken(ReplacementTable(m), RegistryTokens[i])
  {
    TableExcludedTokens(m.folders, m.steam, Some(UbisoftDirectory(m.uplayInstallDir)));
  }

  lemma TableExcludedTokens(f: SpecialFolders, steam: Option<string>, uplay: Option<string>)
    ensures !HasToken(InstallerTable(f, steam, uplay), GameToken)
    ensures forall i :: 0 <= i < |RegistryTokens| ==> !HasToken(InstallerTable(f, steam, uplay), RegistryTokens[i])
  {
    AbsentFromInstallerTable(f, steam, uplay, GameToken);
    AbsentFromInstallerTable(f, steam, uplay, RegistryTokens[0]);
    AbsentFromInstallerTable(f, steam, uplay, RegistryTokens[1]);
    AbsentFromInstallerTable(f, steam, uplay, RegistryTokens[2]);
  }

  /** A token whose fingerprint is neither a fixed token's nor an installer
      token's is not in the table. */
  lemma AbsentFromInstallerTable(f: SpecialFolders, steam: Option<string>, uplay: Option<string>, token: string)
    requires TokenKey(token) !in FixedKeys && TokenKey(token) != (11, 's') && TokenKey(token) != (11, 'u')
    ensures !HasToken(InstallerTable(f, steam, uplay), token)
  {
    TableKeys(f, steam, uplay);
    AbsentByKey(InstallerTable(f, steam, uplay), token);
  }

  /** The table's replacements applied in order, each to the result of the
      previous one, matching tokens case-insensitively. */
  function ApplyTable(s: string, table: Table): string
    requires ValidTable(table)
    decreases |table|
  {
    if table == [] then s
    else ApplyTable(ReplaceCaseInsensitive(s, table[0].0, table[0].1), table[1..])
  }

  /** `{{p|game}}`, matched case-sensitively, becomes the install directory
      when the game has a non-empty one. */
  function SubstituteGame(path: string, installDirectory: Option<string>): string
  {
    if installDirectory.Some? && installDirectory.value != [] then ReplaceAll(path, GameToken, installDirectory.value, false)
    else path
  }

  /** The template after every substitution. */
  function Substitute(path: string, installDirectory: Option<string>, table: Table): string
    requires ValidTable(table)
  {
    ApplyTable(SubstituteGame(path, installDirectory), table)
  }

  /** The template holds a registry token, in any case. */
  predicate IsRegistryPath(path: string)
  {
    exists i :: 0 <= i < |RegistryTokens| && ContainsIgnoreCase(path, RegistryTokens[i])
  }

  /** An entry the resolver looks at: the requested type and no registry token. */
  predicate Relevant(entry: PathData, pathType: PathType)
  {
    entry.pathType == pathType && !IsRegistryPath(entry.path)
  }

  /** The candidate paths one entry contributes: none for an entry that is
      not relevant, the substituted path itself when it has no `*`, and the
      non-empty expansions of it otherwise. */
  function Candidates(entry: PathData, pathType: PathType, installDirectory: Option<string>, table: Table, fs: FileSystem): seq<string>
    requires ValidTable(table)
  {
    if !Relevant(entry, pathType) then []
    else
      var pathDef := Substitute(entry.path, installDirectory, table);
      if '*' !in pathDef then [pathDef] else NonEmptyStrings(GetAllMatchingPaths(pathDef, fs))
  }

  /** The candidates of all entries, in order (`pathDefinitions`). */
  function PathDefinitions(data: seq<PathData>, pathType: PathType, installDirectory: Option<string>, table: Table, fs: FileSystem): seq<string>
    requires ValidTable(table)
    decreases |data|
  {
    if data == [] then []
    else PathDefinitions(data[..|data| - 1], pathType, installDirectory, table, fs)
         + Candidates(data[|data| - 1], pathType, installDirectory, table, fs)
  }

  /** LINQ `Distinct()` with the default, case-sensitive comparer: the first
      occurrence of each string, in order. */
  function Distinct(xs: seq<string>): (r: seq<string>)
    ensures forall i, j :: 0 <= i < j < |r| ==> r[i] != r[j]
    ensures forall x :: x in r <==> x in xs
    decreases |xs|
  {
    if xs == [] then []
    else
      var d := Distinct(xs[..|xs| - 1]);
      assert xs == xs[..|xs| - 1] + [xs[|xs| - 1]];
      if xs[|xs| - 1] in d then d else d + [xs[|xs| - 1]]
  }

  /** What one candidate leaves in the result: itself if it is a directory,
      its parent if it is a file, nothing otherwise. */
  function ExistingDir(p: string, fs: FileSystem): seq<string>
  {
    if DirExists(fs, p) then [p]
    else if FileExists(fs, p) then [ParentDir(p)]
    else []
  }

  /** The directories that the candidates leave, in order (`dirDefinitions`). */
  function ExistingDirs(paths: seq<string>, fs: FileSystem): (r: seq<string>)
    ensures forall d :: d in r ==> DirExists(fs, d) || exists f :: FileExists(fs, f) && f in paths && d == ParentDir(f)
    ensures r != [] <==> exists p :: p in paths && (DirExists(fs, p) || FileExists(fs, p))
    ensures forall p :: p in paths && DirExists(fs, p) ==> p in r
    ensures forall p :: p in paths && !DirExists(fs, p) && FileExists(fs, p) ==> ParentDir(p) in r
    decreases |paths|
  {
    if paths == [] then []
    else
      var init := paths[..|paths| - 1];
      var last := paths[|paths| - 1];
      assert paths == init + [last];
      ExistingDirs(init, fs) + ExistingDir(last, fs)
  }

  /** The result of `GetAvailableDirsFromSaveFileViewData`. */
  function AvailableDirs(data: seq<PathData>, pathType: PathType, installDirectory: Option<string>, table: Table, fs: FileSystem): seq<string>
    requires ValidTable(table)
  {
    ExistingDirs(Distinct(PathDefinitions(data, pathType, installDirectory, table, fs)), fs)
  }

  /** The replacement loop of `GetAvailableDirsFromSaveFileViewData`: each
      table entry is applied, in order, to the result of the previous one. */
  method ApplyReplacements(path: string, table: Table) returns (pathDef: string)
    requires ValidTable(table)
    ensures pathDef == ApplyTable(path, table)
  {
    pathDef := path;
    var j := 0;
    while j < |table|
      invariant 0 <= j <= |table|
      invariant ApplyTable(pathDef, table[j..]) == ApplyTable(path, table)
    {
      assert table[j..][1..] == table[j + 1..];
      pathDef := ReplaceCaseInsensitive(pathDef, table[j].0, table[j].1);
      j := j + 1;
    }
  }

  /** `ReplaceCaseInsensitive`: every occurrence of `search`, in any case,
      becomes `replacement`. */
  function ReplaceCaseInsensitive(input: string, search: string, replacement: string): string
    requires search != []
  {
    ReplaceAll(input, search, replacement, true)
  }

  /** The probing loop of `GetAvailableDirsFromSaveFileViewData`. */
  method ProbeCandidates(paths: seq<string>, fs: FileSystem) returns (dirDefinitions: seq<string>)
    ensures dirDefinitions == ExistingDirs(paths, fs)
  {
    dirDefinitions := [];
    var k := 0;
    while k < |paths|
      invariant 0 <= k <= |paths|
      invariant dirDefinitions == ExistingDirs(paths[..k], fs)
    {
      var path := paths[k];
      assert paths[..k + 1][..k] == paths[..k];
      if DirExists(fs, path) {
        dirDefinitions := dirDefinitions + [path];
      } else if FileExists(fs, path) {
        dirDefinitions := dirDefinitions + [ParentDir(path)];
      }
      k := k + 1;
    }
    assert paths[..k] == paths;
  }

  /** The expansion loop: the non-empty matches are appended in order. */
  method AppendMatches(pathDefinitions: seq<string>, matches: seq<string>) returns (r: seq<string>)
    ensures r == pathDefinitions + NonEmptyStrings(matches)
  {
    r := pathDefinitions;
    var k := 0;
    while k < |matches|
      invariant 0 <= k <= |matches|
      invariant r == pathDefinitions + NonEmptyStrings(matches[..k])
    {
      NonEmptyStringsAppend(matches[..k], [matches[k]]);
      assert matches[..k + 1] == matches[..k] + [matches[k]];
      if matches[k] != [] {
        r := r + [matches[k]];
      }
      k := k + 1;
    }
    assert matches[..k] == matches;
  }

  /** `GetAvailableDirsFromSaveFileViewData`: the entries are walked once,
      each relevant template is substituted token by token and either kept or
      expanded; the distinct candidates are then probed in order. */
  method GetAvailableDirsFromSaveFileViewData(
    data: seq<PathData>, pathType: PathType, installDirectory: Option<string>, table: Table, fs: FileSystem)
    returns (dirDefinitions: seq<string>)
    requires ValidTable(table)
    ensures dirDefinitions == AvailableDirs(data, pathType, installDirectory, table, fs)
  {
    var pathDefinitions: seq<string> := [];
    var i := 0;
    while i < |data|
      invariant 0 <= i <= |data|
      invariant pathDefinitions == PathDefinitions(data[..i], pathType, installDirectory, table, fs)
    {
      PathDefinitionsStep(data, i, pathType, installDirectory, table, fs);
      pathDefinitions := AddCandidates(pathDefinitions, data[i], pathType, installDirectory, table, fs);
      i := i + 1;
    }
    assert data[..i] == data;
    dirDefinitions := ProbeCandidates(Distinct(pathDefinitions), fs);
  }

  /** The body of the loop over the entries: an entry of another type or
      holding a registry token is skipped; otherwise its template is
      substituted and either kept as it is or expanded. */
  method AddCandidates(
    pathDefinitions: seq<string>, pathData: PathData, pathType: PathType, installDirectory: Option<string>, table: Table, fs: FileSystem)
    returns (r: seq<string>)
    requires ValidTable(table)
    ensures r == pathDefinitions + Candidates(pathData, pathType, installDirectory, table, fs)
  {
    if pathData.pathType != pathType || IsRegistryPath(pathData.path) {
      return pathDefinitions;
    }
    var pathDef := SubstituteGame(pathData.path, installDirectory);
    pathDef := ApplyReplacements(pathDef, table);
    if '*' !in pathDef {
      r := pathDefinitions + [pathDef];
    } else {
      r := AppendMatches(pathDefinitions, GetAllMatchingPaths(pathDef, fs));
    }
  }

  /** One more entry adds its candidates. */
  lemma PathDefinitionsStep(
    data: seq<PathData>, i: nat, pathType: PathType, installDirectory: Option<string>, table: Table, fs: FileSystem)
    requires ValidTable(table) && i < |data|
    ensures PathDefinitions(data[..i + 1], pathType, installDirectory, table, fs)
         == PathDefinitions(data[..i], pathType, installDirectory, table, fs)
            + Candidates(data[i], pathType, installDirectory, table, fs)
  {
    assert data[..i + 1][..i] == data[..i];
  }

  /** The relevant entries, in order. */
  function RelevantEntries(data: seq<PathData>, pathType: PathType): (r: seq<PathData>)
    ensures forall e :: e in r ==> e in data && Relevant(e, pathType)
    decreases |data|
  {
    if data == [] then []
    else
      var last := data[|data| - 1];
      RelevantEntries(data[..|data| - 1], pathType) + (if Relevant(last, pathType) then [last] else [])
  }

  /** Entries of another type and entries holding a registry token change
      nothing: resolving only the relevant entries gives the same candidates. */
  lemma {:induction false} IrrelevantEntriesIgnored(
    data: seq<PathData>, pathType: PathType, installDirectory: Option<string>, table: Table, fs: FileSystem)
    requires ValidTable(table)
    ensures PathDefinitions(data, pathType, installDirectory, table, fs)
         == PathDefinitions(RelevantEntries(data, pathType), pathType, installDirectory, table, fs)
    decreases |data|
  {
    if data != [] {
      var init := data[..|data| - 1];
      var last := data[|data| - 1];
      IrrelevantEntriesIgnored(init, pathType, installDirectory, table, fs);
      var rel := RelevantEntries(init, pathType);
      assert PathDefinitions(data, pathType, installDirectory, table, fs)
          == PathDefinitions(init, pathType, installDirectory, table, fs) + Candidates(last, pathType, installDirectory, table, fs);
      if Relevant(last, pathType) {
        var r := rel + [last];
        assert RelevantEntries(data, pathType) == r;
        assert r[..|r| - 1] == rel;
        assert r[|r| - 1] == last;
      } else {
        assert Candidates(last, pathType, installDirectory, table, fs) == [];
        assert RelevantEntries(data, pathType) == rel;
      }
    }
  }

  /** A string is a candidate exactly when some entry contributes it. */
  lemma PathDefinitionsMembers(
    data: seq<PathData>, pathType: PathType, installDirectory: Option<string>, table: Table, fs: FileSystem, p: string)
    requires ValidTable(table)
    ensures p in PathDefinitions(data, pathType, installDirectory, table, fs)
            <==> exists i :: 0 <= i < |data| && p in Candidates(data[i], pathType, installDirectory, table, fs)
  {
    if p in PathDefinitions(data, pathType, installDirectory, table, fs) {
      PathDefinitionsSound(data, pathType, installDirectory, table, fs, p);
    }
    forall i | 0 <= i < |data| && p in Candidates(data[i], pathType, installDirectory, table, fs)
      ensures p in PathDefinitions(data, pathType, installDirectory, table, fs)
    {
      PathDefinitionsComplete(data, pathType, installDirectory, table, fs, p, i);
    }
  }

  /** Every candidate comes from some entry. */
  lemma {:induction false} PathDefinitionsSound(
    data: seq<PathData>, pathType: PathType, installDirectory: Option<string>, table: Table, fs: FileSystem, p: string)
    requires ValidTable(table)
    requires p in PathDefinitions(data, pathType, installDirectory, table, fs)
    ensures exists i :: 0 <= i < |data| && p in Candidates(data[i], pathType, installDirectory, table, fs)
    decreases |data|
  {
    var init := data[..|data| - 1];
    var n := |data| - 1;
    if p in PathDefinitions(init, pathType, installDirectory, table, fs) {
      PathDefinitionsSound(init, pathType, installDirectory, table, fs, p);
      var i :| 0 <= i < |init| && p in Candidates(init[i], pathType, installDirectory, table, fs);
      assert data[i] == init[i];
    } else {
      assert p in Candidates(data[n], pathType, installDirectory, table, fs);
    }
  }

  /** Every entry's candidates are among the candidates. */
  lemma {:induction false} PathDefinitionsComplete(
    data: seq<PathData>, pathType: PathType, installDirectory: Option<string>, table: Table, fs: FileSystem, p: string, i: int)
    requires ValidTable(table)
    requires 0 <= i < |data| && p in Candidates(data[i], pathType, installDirectory, table, fs)
    ensures p in PathDefinitions(data, pathType, installDirectory, table, fs)
    decreases |data|
  {
    var init := data[..|data| - 1];
    if i < |data| - 1 {
      assert init[i] == data[i];
      PathDefinitionsComplete(init, pathType, installDirectory, table, fs, p, i);
    }
  }

  /** What one entry contributes: nothing when it is not relevant, exactly its
      substituted path when that has no `*`, and otherwise only non-empty
      paths that exist and lie under the substituted path's drive. */
  lemma CandidateShapes(entry: PathData, pathType: PathType, installDirectory: Option<string>, table: Table, fs: FileSystem)
    requires ValidTable(table)
    ensures var c := Candidates(entry, pathType, installDirectory, table, fs);
            var d := Substitute(entry.path, installDirectory, table);
            && (!Relevant(entry, pathType) ==> c == [])
            && (Relevant(entry, pathType) && '*' !in d ==> c == [d])
            && (Relevant(entry, pathType) && '*' in d ==>
                  && (forall p :: p in c ==>
                        p != [] && (DirExists(fs, p) || FileExists(fs, p)) && StartsWith(p, TakeUntil(d, Sep) + [Sep]))
                  && (forall p :: p in GetAllMatchingPaths(d, fs) ==> p in c))
  {
  }

  /** The resolver finds a directory exactly when some candidate exists as a
      directory or as a file (whatever `Distinct` dropped was a repeat); every
      directory it returns exists or is the parent of an existing file. */
  lemma AvailableDirsMeaning(
    data: seq<PathData>, pathType: PathType, installDirectory: Option<string>, table: Table, fs: FileSystem)
    requires ValidTable(table)
    ensures var r := AvailableDirs(data, pathType, installDirectory, table, fs);
            var defs := PathDefinitions(data, pathType, installDirectory, table, fs);
            && (r != [] <==> exists p :: p in defs && (DirExists(fs, p) || FileExists(fs, p)))
            && (forall d :: d in r ==> DirExists(fs, d) || exists f :: FileExists(fs, f) && d == ParentDir(f))
            && (forall p :: p in defs && DirExists(fs, p) ==> p in r)
            && (forall p :: p in defs && !DirExists(fs, p) && FileExists(fs, p) ==> ParentDir(p) in r)
  {
    var defs := PathDefinitions(data, pathType, installDirectory, table, fs);
    var distinct := Distinct(defs);
    var r := ExistingDirs(distinct, fs);
    assert r == AvailableDirs(data, pathType, installDirectory, table, fs);
    assert forall p :: p in distinct <==> p in defs;
  }

  /** `{{p|game}}` is matched case-sensitively: a template spelling it in
      upper case keeps the token even when the install directory is known. */
  lemma GameTokenIsCaseSensitive(dir: string)
    ensures SubstituteGame("{{P|GAME}}", Some(dir)) == "{{P|GAME}}"
  {
    var s := "{{P|GAME}}";
    if dir != [] {
      assert s[0..] == s;
      assert s[..|GameToken|][4] != GameToken[4];
      assert NoMatchBefore(s, GameToken, |s| + 1, false);
      ReplaceAbsent(s, GameToken, dir, false);
    }
  }

  /** Applying a table none of whose tokens occurs leaves the string as it is. */
  lemma {:induction false} ApplyTableUnchanged(s: string, table: Table)
    requires ValidTable(table)
    requires forall i :: 0 <= i < |table| ==> !ContainsIgnoreCase(s, table[i].0)
    ensures ApplyTable(s, table) == s
    decreases |table|
  {
    if table != [] {
      ReplaceWithoutOccurrence(s, table[0].0, table[0].1, true);
      ApplyTableUnchanged(s, table[1..]);
    }
  }

  /** A relevant path without `*` in which no token occurs is its own only
      candidate, whatever the table and the install directory. */
  lemma LiteralCandidate(p: string, pathType: PathType, installDirectory: Option<string>, table: Table, fs: FileSystem)
    requires ValidTable(table) && '*' !in p && !IsRegistryPath(p) && !Contains(p, GameToken)
    requires forall i :: 0 <= i < |table| ==> !ContainsIgnoreCase(p, table[i].0)
    ensures Candidates(PathData(p, pathType), pathType, installDirectory, table, fs) == [p]
  {
    if installDirectory.Some? && installDirectory.value != [] {
      ReplaceWithoutOccurrence(p, GameToken, installDirectory.value, false);
    }
    ApplyTableUnchanged(p, table);
  }

  /** The companion plugin's data file for a game, as `CheckActualFoldersExist`
      finds it: absent, unreadable (deserialisation throws), or read, with a
      list of entries that may be null. */
  datatype PluginData = Missing | Unreadable | Loaded(pathsData: Option<seq<PathData>>)

  /** The path type named by the command: `save`, and config for anything else. */
  function PathTypeOf(pathType: string): PathType
  {
    if pathType == "save" then Save else Config
  }

  /** The result of `CheckActualFoldersExist`: the data file is read and
      lists entries, and resolving them with the machine's replacement table
      leaves a directory. */
  function FoldersExist(game: Game, pathType: string, data: PluginData, m: Machine): (r: bool)
    ensures r <==> && data.Loaded? && data.pathsData.Some? && data.pathsData.value != []
                   && exists p :: p in PathDefinitions(data.pathsData.value, PathTypeOf(pathType),
                                                      game.installDirectory, ReplacementTable(m), m.fs)
                                  && (DirExists(m.fs, p) || FileExists(m.fs, p))
  {
    match data
    case Loaded(Some(entries)) =>
      if entries == [] then false
      else
        AvailableDirsMeaning(entries, PathTypeOf(pathType), game.installDirectory, ReplacementTable(m), m.fs);
        AvailableDirs(entries, PathTypeOf(pathType), game.installDirectory, ReplacementTable(m), m.fs) != []
    case _ => false
  }

  /** `CheckActualFoldersExist`: read the data file, build the replacement
      table and resolve the entries of the requested type. */
  method CheckActualFoldersExist(game: Game, pathType: string, data: PluginData, m: Machine)
    returns (found: bool)
    ensures found == FoldersExist(game, pathType, data, m)
  {
    if data.Missing? || data.Unreadable? {
      return false;
    }
    if data.pathsData.None? || data.pathsData.value == [] {
      return false;
    }
    var replacementDict := ReplacementTable(m);
    var availableDirs := GetAvailableDirsFromSaveFileViewData(
      data.pathsData.value, PathTypeOf(pathType), game.installDirectory, replacementDict, m.fs);
    found := availableDirs != [];
  }

  /** The final list is not deduplicated after files are mapped to their
      parent: two different files of one directory give that directory twice. */
  lemma ParentsNotDeduplicated(x: string, y: string, fs: FileSystem)
    requires x != y && FileExists(fs, x) && FileExists(fs, y)
    requires !DirExists(fs, x) && !DirExists(fs, y) && ParentDir(x) == ParentDir(y)
    ensures ExistingDirs(Distinct([x, y]), fs) == [ParentDir(x), ParentDir(x)]
  {
    assert [x, y][..1] == [x];
    assert [x][..0] == [];
    assert Distinct([x]) == [x];
    assert Distinct([x, y]) == [x, y];
    assert [x, y][..1] == [x];
    assert ExistingDirs([x], fs) == [ParentDir(x)];
  }
}
