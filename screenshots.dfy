/** The screenshot folders of a game: `GetScreenshotPathsFromConfig`,
    `AddPlayniteScreenshotFolders`, `GetPlayniteScreenshotFolders` and
    `SanitizePathSegment`. Folders listed for the game in the
    ScreenshotsVisualizer configuration come first; folders named after the
    game under the host's screenshot roots are added when not already
    present, ignoring case. */
module Screenshots {

  import opened Wrappers
  import opened Strings
  import opened Seqs
  import opened Paths
  import opened Json
  import opened Playnite

  /** What the lookup reads from the host: its configuration and
      application directories, the ScreenshotsVisualizer configuration, the
      host's own configuration, and the filesystem. */
  datatype Host = Host(
    configurationPath: string,
    applicationPath: string,
    visualizerConfig: ConfigFile,
    playniteConfig: ConfigFile,
    fs: FileSystem)

  // ----- the ScreenshotsVisualizer configuration

  /** An object with an `Id` property (of any value, null included). */
  predicate HasIdProp(j: Json)
  {
    j.JObject? && Get(j.props, "Id").Some?
  }

  /** A property that holds the games: a non-empty array whose first item
      is an object with an `Id`. */
  predicate IsGamesArray(p: Prop)
  {
    p.value.JArray? && |p.value.items| > 0 && HasIdProp(p.value.items[0])
  }

  /** The games array: the first property of a top-level object that looks
      like one, or a top-level array itself. */
  function GamesArray(doc: Json): (r: Option<seq<Json>>)
    ensures doc.JArray? ==> r == Some(doc.items)
    ensures !doc.JArray? && !doc.JObject? ==> r.None?
    ensures doc.JObject? ==> (r.None? <==> forall i :: 0 <= i < |doc.props| ==> !IsGamesArray(doc.props[i]))
    ensures doc.JObject? && r.Some? ==>
              exists i :: 0 <= i < |doc.props| && IsGamesArray(doc.props[i]) && doc.props[i].value.items == r.value
                          && forall j :: 0 <= j < i ==> !IsGamesArray(doc.props[j])
  {
    match doc
    case JArray(items) => Some(items)
    case JObject(props) =>
      (match FirstWhere(props, IsGamesArray)
       case None => None
       case Some(i) => Some(props[i].value.items))
    case _ => None
  }

  /** The entry of the game: an object whose `Id`, as text, equals the
      game's identifier ignoring case. */
  predicate IsGameEntry(j: Json, gameId: string)
  {
    j.JObject? && match Get(j.props, "Id")
                  case None => false
                  case Some(v) => ScalarText(v).Some? && EqualsIgnoreCase(ScalarText(v).value, gameId)
  }

  /** The folder an item of `ScreenshotsFolders` names: the text of its
      `ScreenshotsFolder` property, when the item is an object and the text
      is not empty. */
  function FolderOf(j: Json): (r: Option<string>)
    ensures r.Some? ==> r.value != []
  {
    if !j.JObject? then None
    else match Get(j.props, "ScreenshotsFolder")
         case None => None
         case Some(v) =>
           match ScalarText(v)
           case None => None
           case Some(t) => if t != [] then Some(t) else None
  }

  /** The folders a `ScreenshotsFolders` array names, in order. */
  function FolderEntries(items: seq<Json>): (r: seq<string>)
    ensures |r| <= |items|
    ensures forall i :: 0 <= i < |r| ==> r[i] != []
    decreases |items|
  {
    if items == [] then []
    else FolderEntries(items[..|items| - 1]) + FolderTail(items[|items| - 1])
  }

  /** A folder is collected exactly when some item names it. */
  lemma {:induction false} FolderEntriesMembers(items: seq<Json>, x: string)
    ensures x in FolderEntries(items) <==> exists k :: 0 <= k < |items| && FolderOf(items[k]) == Some(x)
    decreases |items|
  {
    if items != [] {
      var init := items[..|items| - 1];
      FolderEntriesMembers(init, x);
      if x in FolderEntries(init) {
        var k :| 0 <= k < |init| && FolderOf(init[k]) == Some(x);
        assert items[k] == init[k];
      } else if exists k :: 0 <= k < |items| && FolderOf(items[k]) == Some(x) {
        var k :| 0 <= k < |items| && FolderOf(items[k]) == Some(x);
        if k < |init| {
          assert init[k] == items[k];
        }
      }
    }
  }

  /** The folders are collected item by item, in order: the folders of two
      consecutive runs of items are those of the first run, then those of
      the second. */
  lemma {:induction false} FolderEntriesAppend(a: seq<Json>, b: seq<Json>)
    ensures FolderEntries(a + b) == FolderEntries(a) + FolderEntries(b)
    decreases |b|
  {
    if b == [] {
      assert a + b == a;
    } else {
      var ab := a + b;
      assert ab[..|ab| - 1] == a + b[..|b| - 1] && ab[|ab| - 1] == b[|b| - 1];
      FolderEntriesAppend(a, b[..|b| - 1]);
      FolderEntriesLast(ab);
      FolderEntriesLast(b);
    }
  }

  /** The last item adds its folder, if it names one, at the end. */
  lemma FolderEntriesLast(items: seq<Json>)
    requires items != []
    ensures FolderEntries(items) == FolderEntries(items[..|items| - 1]) + FolderTail(items[|items| - 1])
  {
  }

  /** The folders one item contributes. */
  function FolderTail(x: Json): seq<string>
  {
    if FolderOf(x).Some? then [FolderOf(x).value] else []
  }

  /** The `ScreenshotsFolders` array of the selected entry, if it is one. */
  function FoldersArray(entry: Json): Option<seq<Json>>
  {
    if !entry.JObject? then None
    else match Get(entry.props, "ScreenshotsFolders")
         case Some(JArray(items)) => Some(items)
         case _ => None
  }

  /** The folders the configuration lists for the game; none when the file
      is absent or unreadable, no games array is found, or no entry has the
      game's identifier. */
  function ConfigFolders(config: ConfigFile, gameId: string): (r: seq<string>)
    ensures forall i :: 0 <= i < |r| ==> r[i] != []
    ensures r != [] ==> && config.Parsed? && GamesArray(config.doc).Some?
                        && exists i :: 0 <= i < |GamesArray(config.doc).value|
                                       && IsGameEntry(GamesArray(config.doc).value[i], gameId)
  {
    match config
    case Parsed(doc) =>
      (match GamesArray(doc)
       case None => []
       case Some(games) =>
         match FirstWhere(games, j => IsGameEntry(j, gameId))
         case None => []
         case Some(i) =>
           match FoldersArray(games[i])
           case None => []
           case Some(items) => FolderEntries(items))
    case _ => []
  }

  /** The folders of the first entry with the game's identifier, when the
      configuration is parsed and has a games array. */
  lemma ConfigFoldersOfFirstEntry(config: ConfigFile, gameId: string, i: nat)
    requires config.Parsed? && GamesArray(config.doc).Some?
    requires var games := GamesArray(config.doc).value;
             i < |games| && IsGameEntry(games[i], gameId)
             && forall k :: 0 <= k < i ==> !IsGameEntry(games[k], gameId)
    ensures var entry := GamesArray(config.doc).value[i];
            ConfigFolders(config, gameId) == if FoldersArray(entry).Some? then FolderEntries(FoldersArray(entry).value) else []
  {
    var games := GamesArray(config.doc).value;
    var found := FirstWhere(games, j => IsGameEntry(j, gameId));
    assert found == Some(i);
  }

  /** The loop that collects the folders of the game's entry. */
  method CollectFolders(items: seq<Json>) returns (screenshotPaths: seq<string>)
    ensures screenshotPaths == FolderEntries(items)
  {
    screenshotPaths := [];
    var k := 0;
    while k < |items|
      invariant 0 <= k <= |items|
      invariant screenshotPaths == FolderEntries(items[..k])
    {
      assert items[..k + 1][..k] == items[..k];
      var folder := FolderOf(items[k]);
      if folder.Some? {
        screenshotPaths := screenshotPaths + [folder.value];
      }
      k := k + 1;
    }
    assert items[..k] == items;
  }

  // ----- the host's screenshot roots

  /** A property naming a screenshot location: `screenshot` in its name,
      in any case, and a string value that is not blank. */
  predicate IsScreenshotProp(p: Prop)
  {
    ContainsIgnoreCase(p.name, "screenshot") && p.value.JString? && !IsBlank(p.value.s)
  }

  /** The expanded values of the screenshot properties, in document order;
      `expand` is `Environment.ExpandEnvironmentVariables`. */
  function ScreenshotValues(props: seq<Prop>, expand: string -> string): (r: seq<string>)
    ensures forall x :: x in r ==> exists p :: p in props && IsScreenshotProp(p) && x == expand(p.value.s)
    ensures forall p :: p in props && IsScreenshotProp(p) ==> expand(p.value.s) in r
    decreases |props|
  {
    if props == [] then []
    else
      var rest := ScreenshotValues(props[1..], expand);
      assert forall p :: p in props[1..] ==> p in props;
      assert forall p :: p in props ==> p == props[0] || p in props[1..];
      (if IsScreenshotProp(props[0]) then [expand(props[0].value.s)] else []) + rest
  }

  /** The roots named by the host's configuration: its screenshot
      properties at any depth, when the document is an object or an array. */
  function ConfigRoots(config: ConfigFile, expand: string -> string): seq<string>
  {
    if config.Parsed? && (config.doc.JObject? || config.doc.JArray?) then ScreenshotValues(PropsIn(config.doc), expand)
    else []
  }

  /** A root comes from the host's configuration exactly when a screenshot
      property anywhere in the document names it. */
  lemma ConfigRootsMeaning(config: ConfigFile, expand: string -> string, x: string)
    ensures x in ConfigRoots(config, expand)
            <==> config.Parsed? && (config.doc.JObject? || config.doc.JArray?)
                 && exists p :: Reaches(config.doc, p) && IsScreenshotProp(p) && x == expand(p.value.s)
  {
    if config.Parsed? && (config.doc.JObject? || config.doc.JArray?) {
      forall p ensures p in PropsIn(config.doc) <==> Reaches(config.doc, p) {
        PropsInMeaning(config.doc, p);
      }
    }
  }

  /** The three default roots. */
  function DefaultRoots(host: Host): seq<string>
  {
    [ Combine(host.configurationPath, "Screenshots"),
      Combine(host.applicationPath, "_screenshots"),
      Combine(host.applicationPath, "Screenshots") ]
  }

  /** The non-blank roots, trimmed. */
  function TrimmedRoots(roots: seq<string>): (r: seq<string>)
    ensures forall i :: 0 <= i < |r| ==> !IsBlank(r[i])
    ensures forall i :: 0 <= i < |r| ==> exists k :: 0 <= k < |roots| && r[i] == Trim(roots[k])
    ensures forall k :: 0 <= k < |roots| && !IsBlank(roots[k]) ==> Trim(roots[k]) in r
    decreases |roots|
  {
    if roots == [] then []
    else
      var rest := TrimmedRoots(roots[1..]);
      assert forall i :: 0 <= i < |rest| ==> exists k :: 0 <= k < |roots| && rest[i] == Trim(roots[k]) by {
        forall i | 0 <= i < |rest| ensures exists k :: 0 <= k < |roots| && rest[i] == Trim(roots[k]) {
          var k :| 0 <= k < |roots| - 1 && rest[i] == Trim(roots[1..][k]);
          assert roots[1..][k] == roots[k + 1];
        }
      }
      assert forall k :: 1 <= k < |roots| ==> roots[k] == roots[1..][k - 1];
      (if IsBlank(roots[0]) then [] else [Trim(roots[0])]) + rest
  }

  /** Some element equals `x` ignoring case. */
  predicate HasIgnoreCase(xs: seq<string>, x: string)
  {
    exists i :: 0 <= i < |xs| && EqualsIgnoreCase(xs[i], x)
  }

  /** No two elements are equal ignoring case. */
  predicate DistinctIgnoringCase(xs: seq<string>)
  {
    forall i, j :: 0 <= i < j < |xs| ==> !EqualsIgnoreCase(xs[i], xs[j])
  }

  /** `Distinct(StringComparer.OrdinalIgnoreCase)`: the first of each group
      of strings equal ignoring case, in order. */
  function DistinctIgnoreCase(xs: seq<string>): (r: seq<string>)
    ensures DistinctIgnoringCase(r)
    ensures forall x :: x in r ==> x in xs
    ensures forall x :: x in xs ==> HasIgnoreCase(r, x)
    decreases |xs|
  {
    if xs == [] then []
    else
      var init := xs[..|xs| - 1];
      var last := xs[|xs| - 1];
      var d := DistinctIgnoreCase(init);
      assert xs == init + [last];
      if HasIgnoreCase(d, last) then d
      else
        var r := d + [last];
        assert forall x :: x in init ==> HasIgnoreCase(r, x) by {
          forall x | x in init ensures HasIgnoreCase(r, x) {
            var i :| 0 <= i < |d| && EqualsIgnoreCase(d[i], x);
            assert r[i] == d[i];
          }
        }
        assert HasIgnoreCase(r, last) by {
          assert r[|d|] == last;
        }
        r
  }

  /** The roots that exist as directories, in order. */
  function ExistingRoots(roots: seq<string>, fs: FileSystem): (r: seq<string>)
    ensures forall i :: 0 <= i < |r| ==> DirExists(fs, r[i]) && r[i] in roots
    ensures forall x :: x in roots && DirExists(fs, x) ==> x in r
    ensures DistinctIgnoringCase(roots) ==> DistinctIgnoringCase(r)
    decreases |roots|
  {
    if roots == [] then []
    else
      var init := roots[..|roots| - 1];
      var last := roots[|roots| - 1];
      assert roots == init + [last];
      var e := ExistingRoots(init, fs);
      if DirExists(fs, last) then
        var r := e + [last];
        assert DistinctIgnoringCase(roots) ==> DistinctIgnoringCase(r) by {
          if DistinctIgnoringCase(roots) {
            assert DistinctIgnoringCase(init);
            forall i | 0 <= i < |e| ensures !EqualsIgnoreCase(e[i], last) {
              var k :| 0 <= k < |init| && init[k] == e[i];
              assert roots[k] == e[i];
            }
          }
        }
        r
      else e
  }

  /** The roots the lookup probes: those named by the configuration, then
      the three defaults; blank ones dropped, the rest trimmed, repeats
      ignoring case dropped, and only existing directories kept. */
  function UniqueRoots(host: Host, expand: string -> string): (r: seq<string>)
    ensures forall i :: 0 <= i < |r| ==> DirExists(host.fs, r[i]) && !IsBlank(r[i])
    ensures DistinctIgnoringCase(r)
  {
    var trimmed := TrimmedRoots(ConfigRoots(host.playniteConfig, expand) + DefaultRoots(host));
    var unique := DistinctIgnoreCase(trimmed);
    var r := ExistingRoots(unique, host.fs);
    assert forall i :: 0 <= i < |r| ==> !IsBlank(r[i]) by {
      forall i | 0 <= i < |r| ensures !IsBlank(r[i]) {
        assert r[i] in unique;
        assert r[i] in trimmed;
      }
    }
    r
  }

  /** Directory lookups that ignore case, as on Windows. */
  ghost predicate CaseInsensitiveDirs(fs: FileSystem)
  {
    forall a, b :: EqualsIgnoreCase(a, b) && DirExists(fs, a) ==> DirExists(fs, b)
  }

  /** On a filesystem whose directory lookups ignore case, every root named
      by the configuration or among the defaults that is not blank and exists
      once trimmed is probed, in one spelling or another. */
  lemma UniqueRootsCover(host: Host, expand: string -> string, x: string)
    requires CaseInsensitiveDirs(host.fs)
    requires x in ConfigRoots(host.playniteConfig, expand) + DefaultRoots(host)
    requires !IsBlank(x) && DirExists(host.fs, Trim(x))
    ensures HasIgnoreCase(UniqueRoots(host, expand), Trim(x))
  {
    RootsCover(ConfigRoots(host.playniteConfig, expand) + DefaultRoots(host), host.fs, x);
  }

  /** The three stages of `UniqueRoots` keep, in some spelling, every
      non-blank root that exists once trimmed. */
  lemma RootsCover(roots: seq<string>, fs: FileSystem, x: string)
    requires CaseInsensitiveDirs(fs)
    requires x in roots && !IsBlank(x) && DirExists(fs, Trim(x))
    ensures HasIgnoreCase(ExistingRoots(DistinctIgnoreCase(TrimmedRoots(roots)), fs), Trim(x))
  {
    var trimmed := TrimmedRoots(roots);
    var k :| 0 <= k < |roots| && roots[k] == x;
    assert Trim(x) in trimmed;
    ExistingCover(DistinctIgnoreCase(trimmed), fs, Trim(x));
  }

  /** A directory that exists in one spelling among the roots is kept in
      that spelling by `ExistingRoots`. */
  lemma ExistingCover(unique: seq<string>, fs: FileSystem, y: string)
    requires CaseInsensitiveDirs(fs)
    requires HasIgnoreCase(unique, y) && DirExists(fs, y)
    ensures HasIgnoreCase(ExistingRoots(unique, fs), y)
  {
    var i :| 0 <= i < |unique| && EqualsIgnoreCase(unique[i], y);
    var u := unique[i];
    assert DirExists(fs, u) by {
      assert EqualsIgnoreCase(y, u);
    }
    var r := ExistingRoots(unique, fs);
    assert u in r;
    var j :| 0 <= j < |r| && r[j] == u;
    assert EqualsIgnoreCase(r[j], y);
  }

  // ----- the names probed under each root

  /** `Path.GetInvalidFileNameChars()`. */
  predicate IsInvalidFileNameChar(c: char)
  {
    IsInvalidPathChar(c) || c == ':' || c == '*' || c == '?' || c == '\\' || c == '/'
  }

  function SanitizeChar(c: char): char
  {
    if IsInvalidFileNameChar(c) then '_' else c
  }

  /** The result of `SanitizePathSegment`: a blank value unchanged, and
      otherwise every character not allowed in a file name replaced by `_`. */
  function Sanitized(value: string): (r: string)
    ensures |r| == |value|
    ensures IsBlank(value) ==> r == value
    ensures !IsBlank(value) ==>
              forall i :: 0 <= i < |r| ==> && !IsInvalidFileNameChar(r[i])
                                           && (if IsInvalidFileNameChar(value[i]) then r[i] == '_' else r[i] == value[i])
  {
    if IsBlank(value) then value
    else seq(|value|, i requires 0 <= i < |value| => SanitizeChar(value[i]))
  }

  /** Sanitizing twice changes nothing more. */
  lemma SanitizedIdempotent(value: string)
    ensures Sanitized(Sanitized(value)) == Sanitized(value)
  {
    var s := Sanitized(value);
    if !IsBlank(value) && !IsBlank(s) {
      assert forall i :: 0 <= i < |s| ==> Sanitized(s)[i] == s[i];
    }
  }

  /** A name that is not blank stays not blank, and its sanitized form has
      no character that `Path.Combine` rejects. */
  lemma SanitizedIsUsableName(value: string)
    requires !IsBlank(value)
    ensures !IsBlank(Sanitized(value))
    ensures !HasInvalidPathChars(Sanitized(value))
  {
    var k :| 0 <= k < |value| && !IsWhiteSpace(value[k]);
    assert !IsWhiteSpace(Sanitized(value)[k]);
  }

  /** `SanitizePathSegment`: the characters are copied into a buffer, each
      invalid one replaced. */
  method SanitizePathSegment(value: string) returns (r: string)
    ensures r == Sanitized(value)
  {
    if IsBlank(value) {
      return value;
    }
    var buffer := new char[|value|];
    for i := 0 to |value|
      invariant forall j :: 0 <= j < i ==> buffer[j] == SanitizeChar(value[j])
    {
      var ch := value[i];
      buffer[i] := if IsInvalidFileNameChar(ch) then '_' else ch;
    }
    r := buffer[..];
  }

  /** The non-blank names, in order. */
  function NonBlank(xs: seq<string>): (r: seq<string>)
    ensures forall i :: 0 <= i < |r| ==> !IsBlank(r[i]) && r[i] in xs
    ensures forall x :: x in xs && !IsBlank(x) ==> x in r
    decreases |xs|
  {
    if xs == [] then []
    else (if IsBlank(xs[0]) then [] else [xs[0]]) + NonBlank(xs[1..])
  }

  /** The names probed: the game's name and its sanitized form when the
      name is not blank, then the game's identifier; blank ones skipped. */
  function NameCandidates(game: Game): (r: seq<string>)
    ensures forall i :: 0 <= i < |r| ==> !IsBlank(r[i])
    ensures !IsNullOrBlank(game.name) ==> game.name.value in r && Sanitized(game.name.value) in r
    ensures !IsBlank(game.id) ==> game.id in r
    ensures forall x :: x in r ==> (!IsNullOrBlank(game.name) && (x == game.name.value || x == Sanitized(game.name.value)))
                                   || x == game.id
    ensures r == (if !IsNullOrBlank(game.name) then [game.name.value, Sanitized(game.name.value)] else [])
                 + (if !IsBlank(game.id) then [game.id] else [])
  {
    var named := if !IsNullOrBlank(game.name) then [game.name.value, Sanitized(game.name.value)] else [];
    assert !IsNullOrBlank(game.name) ==> !IsBlank(Sanitized(game.name.value)) by {
      if !IsNullOrBlank(game.name) {
        SanitizedIsUsableName(game.name.value);
      }
    }
    NonBlankAppend(named, [game.id]);
    NonBlankKeepsAll(named);
    assert [game.id][1..] == [];
    NonBlank(named + [game.id])
  }

  /** The filter works element by element. */
  lemma {:induction false} NonBlankAppend(xs: seq<string>, ys: seq<string>)
    ensures NonBlank(xs + ys) == NonBlank(xs) + NonBlank(ys)
    decreases |xs|
  {
    if xs != [] {
      var zs := xs + ys;
      assert zs[0] == xs[0] && zs[1..] == xs[1..] + ys;
      NonBlankAppend(xs[1..], ys);
      var head := if IsBlank(xs[0]) then [] else [xs[0]];
      assert NonBlank(zs) == head + NonBlank(xs[1..] + ys);
      assert NonBlank(xs) == head + NonBlank(xs[1..]);
    } else {
      assert xs + ys == ys;
    }
  }

  /** A list without blank names passes the filter unchanged. */
  lemma {:induction false} NonBlankKeepsAll(xs: seq<string>)
    requires forall i :: 0 <= i < |xs| ==> !IsBlank(xs[i])
    ensures NonBlank(xs) == xs
    decreases |xs|
  {
    if xs != [] {
      NonBlankKeepsAll(xs[1..]);
    }
  }

  // ----- probing

  /** The directories found under one root, with names whose combination
      `Path.Combine` would reject skipped. */
  function ProbeRoot(root: string, names: seq<string>, fs: FileSystem): (r: seq<string>)
    ensures forall p :: p in r ==> DirExists(fs, p) && exists name :: name in names && CombineChecked(root, name) == Ok(p)
    ensures forall name :: name in names && CombineChecked(root, name).Ok? && DirExists(fs, CombineChecked(root, name).value)
                           ==> CombineChecked(root, name).value in r
    decreases |names|
  {
    if names == [] then []
    else
      var here := match CombineChecked(root, names[0])
                  case Ok(c) => if DirExists(fs, c) then [c] else []
                  case Thrown => [];
      assert forall name :: name in names[1..] ==> name in names;
      assert forall name :: name in names ==> name == names[0] || name in names[1..];
      here + ProbeRoot(root, names[1..], fs)
  }

  /** The directories found under every root, root by root. */
  function Probe(roots: seq<string>, names: seq<string>, fs: FileSystem): (r: seq<string>)
    ensures forall p :: p in r ==> DirExists(fs, p) && exists root, name :: root in roots && name in names
                                                                            && CombineChecked(root, name) == Ok(p)
    ensures forall root, name :: root in roots && name in names && CombineChecked(root, name).Ok?
                                 && DirExists(fs, CombineChecked(root, name).value)
                                 ==> CombineChecked(root, name).value in r
    decreases |roots|
  {
    if roots == [] then []
    else
      assert forall root :: root in roots[1..] ==> root in roots;
      assert forall root :: root in roots ==> root == roots[0] || root in roots[1..];
      ProbeRoot(roots[0], names, fs) + Probe(roots[1..], names, fs)
  }

  /** The probing of one root as written: a name with a character
      `Path.Combine` rejects makes the whole enumeration throw. */
  function ProbeRootAsWritten(root: string, names: seq<string>, fs: FileSystem): (r: Result<seq<string>>)
    ensures r.Thrown? <==> exists name :: name in names && CombineChecked(root, name).Thrown?
    ensures r.Ok? ==> r.value == ProbeRoot(root, names, fs)
    decreases |names|
  {
    if names == [] then Ok([])
    else
      assert forall name :: name in names[1..] ==> name in names;
      assert forall name :: name in names ==> name == names[0] || name in names[1..];
      match CombineChecked(root, names[0])
      case Thrown => Thrown
      case Ok(c) =>
        match ProbeRootAsWritten(root, names[1..], fs)
        case Thrown => Thrown
        case Ok(found) => Ok((if DirExists(fs, c) then [c] else []) + found)
  }

  /** The probing of every root as written. */
  function ProbeAsWritten(roots: seq<string>, names: seq<string>, fs: FileSystem): (r: Result<seq<string>>)
    ensures r.Thrown? <==> exists root, name :: root in roots && name in names && CombineChecked(root, name).Thrown?
    ensures r.Ok? ==> r.value == Probe(roots, names, fs)
    decreases |roots|
  {
    if roots == [] then Ok([])
    else
      assert forall root :: root in roots[1..] ==> root in roots;
      assert forall root :: root in roots ==> root == roots[0] || root in roots[1..];
      match ProbeRootAsWritten(roots[0], names, fs)
      case Thrown => Thrown
      case Ok(found) =>
        match ProbeAsWritten(roots[1..], names, fs)
        case Thrown => Thrown
        case Ok(more) => Ok(found + more)
  }

  /** `GetPlayniteScreenshotFolders` as written. */
  function PlayniteFoldersAsWritten(game: Game, host: Host, expand: string -> string): Result<seq<string>>
  {
    ProbeAsWritten(UniqueRoots(host, expand), NameCandidates(game), host.fs)
  }

  /** `GetPlayniteScreenshotFolders` with a name that cannot form a path
      skipped rather than aborting the enumeration. */
  function PlayniteFolders(game: Game, host: Host, expand: string -> string): (r: seq<string>)
    ensures forall p :: p in r ==> DirExists(host.fs, p)
                                   && exists root, name :: root in UniqueRoots(host, expand) && name in NameCandidates(game)
                                                           && CombineChecked(root, name) == Ok(p)
    ensures forall root, name :: root in UniqueRoots(host, expand) && name in NameCandidates(game)
                                 && CombineChecked(root, name).Ok? && DirExists(host.fs, CombineChecked(root, name).value)
                                 ==> CombineChecked(root, name).value in r
  {
    Probe(UniqueRoots(host, expand), NameCandidates(game), host.fs)
  }

  // ----- merging

  /** `AddPlayniteScreenshotFolders` on values: each found folder is
      appended unless one equal to it ignoring case is already present. */
  function AddMissing(paths: seq<string>, found: seq<string>): seq<string>
    decreases |found|
  {
    if found == [] then paths
    else AddMissing(if HasIgnoreCase(paths, found[0]) then paths else paths + [found[0]], found[1..])
  }

  /** The given paths stay in front, unchanged; everything after them is a
      found folder. */
  lemma {:induction false} AddMissingExtends(paths: seq<string>, found: seq<string>)
    ensures var r := AddMissing(paths, found);
            |paths| <= |r| && r[..|paths|] == paths && forall i :: |paths| <= i < |r| ==> r[i] in found
    decreases |found|
  {
    if found != [] {
      var next := if HasIgnoreCase(paths, found[0]) then paths else paths + [found[0]];
      AddMissingExtends(next, found[1..]);
      var r := AddMissing(paths, found);
      assert r[..|next|][..|paths|] == r[..|paths|];
      forall i | |paths| <= i < |r| ensures r[i] in found {
        if i >= |next| {
          assert r[i] in found[1..];
        } else {
          assert r[i] == r[..|next|][i] == next[i] == found[0];
        }
      }
    }
  }

  /** Every found folder ends up present, ignoring case. */
  lemma {:induction false} AddMissingCovers(paths: seq<string>, found: seq<string>)
    ensures forall x :: x in found ==> HasIgnoreCase(AddMissing(paths, found), x)
    decreases |found|
  {
    if found != [] {
      var next := if HasIgnoreCase(paths, found[0]) then paths else paths + [found[0]];
      AddMissingCovers(next, found[1..]);
      AddMissingExtends(next, found[1..]);
      var r := AddMissing(paths, found);
      assert HasIgnoreCase(next, found[0]) by {
        if !HasIgnoreCase(paths, found[0]) {
          assert next[|paths|] == found[0];
        }
      }
      var i :| 0 <= i < |next| && EqualsIgnoreCase(next[i], found[0]);
      assert r[i] == r[..|next|][i] == next[i];
      assert forall x :: x in found ==> x == found[0] || x in found[1..];
    }
  }

  /** No two paths equal ignoring case are created by the merge. */
  lemma {:induction false} AddMissingKeepsDistinct(paths: seq<string>, found: seq<string>)
    requires DistinctIgnoringCase(paths)
    ensures DistinctIgnoringCase(AddMissing(paths, found))
    decreases |found|
  {
    if found != [] {
      var next := if HasIgnoreCase(paths, found[0]) then paths else paths + [found[0]];
      assert DistinctIgnoringCase(next);
      AddMissingKeepsDistinct(next, found[1..]);
    }
  }

  /** Folders that are all present already change nothing. */
  lemma {:induction false} AddMissingNothingNew(paths: seq<string>, found: seq<string>)
    requires forall x :: x in found ==> HasIgnoreCase(paths, x)
    ensures AddMissing(paths, found) == paths
    decreases |found|
  {
    if found != [] {
      assert found[0] in found;
      assert forall x :: x in found[1..] ==> x in found;
      AddMissingNothingNew(paths, found[1..]);
    }
  }

  /** Merging the same folders twice gives what merging once gives. */
  lemma AddMissingIdempotent(paths: seq<string>, found: seq<string>)
    ensures AddMissing(AddMissing(paths, found), found) == AddMissing(paths, found)
  {
    AddMissingCovers(paths, found);
    AddMissingNothingNew(AddMissing(paths, found), found);
  }

  /** `AddPlayniteScreenshotFolders` as written: the host's folders for the
      game are appended to the list given, skipping those already in it, and
      an exception of the lookup escapes. */
  function AddPlayniteFoldersAsWritten(screenshotPaths: seq<string>, game: Game, host: Host, expand: string -> string): Result<seq<string>>
  {
    match PlayniteFoldersAsWritten(game, host, expand)
    case Thrown => Thrown
    case Ok(found) => Ok(AddMissing(screenshotPaths, found))
  }

  /** `AddPlayniteScreenshotFolders`. It throws exactly when a root and a
      probed name cannot be combined; otherwise it appends the corrected
      lookup's folders. */
  method AddPlayniteScreenshotFolders(game: Game, screenshotPaths: seq<string>, host: Host, expand: string -> string)
    returns (r: Result<seq<string>>)
    ensures r == AddPlayniteFoldersAsWritten(screenshotPaths, game, host, expand)
    ensures r.Thrown? <==> exists root, name :: root in UniqueRoots(host, expand) && name in NameCandidates(game)
                                                && CombineChecked(root, name).Thrown?
    ensures r.Ok? ==> r.value == AddMissing(screenshotPaths, PlayniteFolders(game, host, expand))
  {
    var found := PlayniteFoldersAsWritten(game, host, expand);
    if found.Thrown? {
      return Thrown;
    }
    var merged := AppendMissing(screenshotPaths, found.value);
    r := Ok(merged);
  }

  /** The loop of `AddPlayniteScreenshotFolders`. */
  method AppendMissing(screenshotPaths: seq<string>, found: seq<string>) returns (r: seq<string>)
    ensures r == AddMissing(screenshotPaths, found)
  {
    r := screenshotPaths;
    var k := 0;
    while k < |found|
      invariant 0 <= k <= |found|
      invariant AddMissing(r, found[k..]) == AddMissing(screenshotPaths, found)
    {
      assert found[k..][1..] == found[k + 1..];
      var path := found[k];
      if !HasIgnoreCase(r, path) {
        r := r + [path];
      }
      k := k + 1;
    }
  }

  /** The result of `GetScreenshotPathsFromConfig`. */
  function ScreenshotPaths(game: Game, host: Host, expand: string -> string): seq<string>
  {
    AddMissing(ConfigFolders(host.visualizerConfig, game.id), PlayniteFolders(game, host, expand))
  }

  /** The result of `GetScreenshotPathsFromConfig` as written: the
      exception of the host folder lookup escapes it. */
  function ScreenshotPathsAsWritten(game: Game, host: Host, expand: string -> string): Result<seq<string>>
  {
    AddPlayniteFoldersAsWritten(ConfigFolders(host.visualizerConfig, game.id), game, host, expand)
  }

  /** What the lookup returns: the configured folders first, in order, then
      host folders; every host folder is present ignoring case, every added
      one exists, and no two host folders added are equal ignoring case. */
  lemma ScreenshotPathsMeaning(game: Game, host: Host, expand: string -> string)
    ensures var configured := ConfigFolders(host.visualizerConfig, game.id);
            var found := PlayniteFolders(game, host, expand);
            var r := ScreenshotPaths(game, host, expand);
            && |configured| <= |r| && r[..|configured|] == configured
            && (forall i :: |configured| <= i < |r| ==> r[i] in found && DirExists(host.fs, r[i]))
            && (forall x :: x in found ==> HasIgnoreCase(r, x))
            && (DistinctIgnoringCase(configured) ==> DistinctIgnoringCase(r))
  {
    var configured := ConfigFolders(host.visualizerConfig, game.id);
    var found := PlayniteFolders(game, host, expand);
    AddMissingExtends(configured, found);
    AddMissingCovers(configured, found);
    if DistinctIgnoringCase(configured) {
      AddMissingKeepsDistinct(configured, found);
    }
  }

  /** Where no root and no probed name holds a character `Path.Combine`
      rejects, the lookup as written and the corrected one agree. */
  lemma AsWrittenAgreesOnValidNames(game: Game, host: Host, expand: string -> string)
    requires forall root :: root in UniqueRoots(host, expand) ==> !HasInvalidPathChars(root)
    requires forall name :: name in NameCandidates(game) ==> !HasInvalidPathChars(name)
    ensures ScreenshotPathsAsWritten(game, host, expand) == Ok(ScreenshotPaths(game, host, expand))
  {
  }

  /** `GetScreenshotPathsFromConfig`: the folders the ScreenshotsVisualizer
      configuration lists for the game, then the host's folders. */
  method GetScreenshotPathsFromConfig(game: Game, host: Host, expand: string -> string)
    returns (r: Result<seq<string>>)
    ensures r == ScreenshotPathsAsWritten(game, host, expand)
    ensures r.Ok? ==> r.value == ScreenshotPaths(game, host, expand)
  {
    var screenshotPaths := [];
    if host.visualizerConfig.Parsed? {
      var gamesArray := GamesArray(host.visualizerConfig.doc);
      if gamesArray.Some? {
        var gameData := FirstWhere(gamesArray.value, j => IsGameEntry(j, game.id));
        if gameData.Some? {
          var screenshotsFolders := FoldersArray(gamesArray.value[gameData.value]);
          if screenshotsFolders.Some? {
            screenshotPaths := CollectFolders(screenshotsFolders.value);
          }
        }
      }
    }
    r := AddPlayniteScreenshotFolders(game, screenshotPaths, host, expand);
  }

  /** A game whose name holds `"`, `<`, `>` or `|`: as written, the raw
      name makes `Path.Combine` throw as soon as one root exists, so the
      lookup fails and even the folder named after the sanitized name is
      never reported; the corrected lookup reports it. */
  lemma InvalidNameAbortsLookup(game: Game, host: Host, expand: string -> string, root: string)
    requires game.name.Some? && !IsBlank(game.name.value) && HasInvalidPathChars(game.name.value)
    requires root in UniqueRoots(host, expand) && !HasInvalidPathChars(root)
    requires DirExists(host.fs, Combine(root, Sanitized(game.name.value)))
    ensures ScreenshotPathsAsWritten(game, host, expand).Thrown?
    ensures HasIgnoreCase(ScreenshotPaths(game, host, expand), Combine(root, Sanitized(game.name.value)))
  {
    var name := game.name.value;
    var found := PlayniteFolders(game, host, expand);
    InvalidNameAbortsProbe(game, host, expand, root);
    SanitizedFolderProbed(game, host, expand, root);
    AddMissingCovers(ConfigFolders(host.visualizerConfig, game.id), found);
  }

  lemma InvalidNameAbortsProbe(game: Game, host: Host, expand: string -> string, root: string)
    requires game.name.Some? && !IsBlank(game.name.value) && HasInvalidPathChars(game.name.value)
    requires root in UniqueRoots(host, expand)
    ensures PlayniteFoldersAsWritten(game, host, expand).Thrown?
  {
    assert game.name.value in NameCandidates(game);
    assert CombineChecked(root, game.name.value).Thrown?;
  }

  /** The folder named after the sanitized name is found under every root
      that can be combined with it. */
  lemma SanitizedFolderProbed(game: Game, host: Host, expand: string -> string, root: string)
    requires game.name.Some? && !IsBlank(game.name.value)
    requires root in UniqueRoots(host, expand) && !HasInvalidPathChars(root)
    requires DirExists(host.fs, Combine(root, Sanitized(game.name.value)))
    ensures Combine(root, Sanitized(game.name.value)) in PlayniteFolders(game, host, expand)
  {
    var name := game.name.value;
    SanitizedIsUsableName(name);
    assert Sanitized(name) in NameCandidates(game);
    assert CombineChecked(root, Sanitized(name)) == Ok(Combine(root, Sanitized(name)));
  }
}
