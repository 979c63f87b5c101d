# Folder discovery, availability cache and game menus of the Theme Extras add-on

This project models, in Dafny, the logic part of `CommandSettings` and `Menus` in
`source/ExtrasSettings.cs` of the Playnite *Theme Extras* add-on. It covers:

- the **availability cache** behind the "open save folder" and "open config folder" commands:
  - `CheckSaveFileViewPlugin`: answers cached for 500 ms, a pending-key set, and a sweep of expired answers once the cache holds more than 20;
  - `GetCachedMenuItems`: menu lists cached the same way, swept once the cache holds more than 10;
  - `TryOpenWithSaveFileViewPlugin`, up to the choice of the menu item it invokes;
- the **keyword predicate** that picks the SaveFileView companion plugin's "open save/config folder" item;
- the **template resolver** `GetAvailableDirsFromSaveFileViewData`, which works on the PCGamingWiki path templates that SaveFileView stores. Its steps:
  1. it filters the templates by type;
  2. it drops registry templates;
  3. it substitutes `{{p|game}}`;
  4. it applies the replacement table of `GetSaveFileViewReplacementDict` with `ReplaceCaseInsensitive`;
  5. it expands wildcards with `GetAllMatchingPaths`;
  6. it keeps existing directories, and the parent directory of each existing file.

  Around it, `CheckActualFoldersExist` decides whether any folder exists;
- the **screenshot folders**:
  - the ScreenshotsVisualizer configuration;
  - Playnite's own screenshot roots and the probing of name candidates under them;
  - `SanitizePathSegment`;
  - `AddPlayniteScreenshotFolders`;
- the **menu builder** `CreateGameMenuItems` and the four menu getters that put a settings item in front of the built menu.

The modelling choices:

- The filesystem is the value `Paths.FileSystem`: the ordered lists of existing directories and files.
- The clock is a parameter counted in `DateTime` ticks. The TTL of 500 ms is `AvailabilityCache.CacheTimeout = 5_000_000`.
- The check and the menu lookup read the clock separately, as `now` and `menuNow`.
- The Playnite host is a set of inputs: the loaded plugins, the companion plugin's answer to `GetGameMenuItems`, the parsed data files, the special folders and the installer directories.
- The static dictionaries and the pending set are the fields of the class `AvailabilityCache.CommandCache`. Its methods are proved against the transition functions `MenuLookup`, `Attempt`, `Resolve` and `Check` on the value `CacheState`, and the lemmas state what the source promises about those functions.
- The loops of the source are methods proved equal to recursive specification functions:
  - the resolver loop, the replacement loop and the probe loop;
  - the sanitizer's `char[]` buffer;
  - the append loop of `AddPlayniteScreenshotFolders`;
  - the outer loop of `CreateGameMenuItems`.
- The ordering and the "already present" tests of the source are kept as written: `Distinct()` is case-sensitive, the probe of screenshot roots ignores case, and dictionary enumeration follows insertion order.

## Model

| member | source | states |
|---|---|---|
| AvailabilityCache.Sweep | source/ExtrasSettings.cs:1198-1209 | after the sweep a key remains exactly when its entry was fresh (`now - stamp < TTL`), and every remaining entry is unchanged |
| AvailabilityCache.RemoveKeys | source/ExtrasSettings.cs:1205-1208 | the `foreach` removal loop leaves the map minus exactly the listed keys |
| AvailabilityCache.SweepKeepsExactlyFresh | source/ExtrasSettings.cs:1198-1209 | the sweep never adds a key, leaves only fresh entries, and the kept and the removed entries together are all the old ones |
| AvailabilityCache.MenuLookup | source/ExtrasSettings.cs:1290-1334 | a fresh entry is returned with the cache untouched; otherwise the plugin's answer is returned and stored under `menuItems:<id>` stamped `now`; a throwing plugin leaves no entry for the key; no other key is added or changed, and no fresh other entry is dropped |
| AvailabilityCache.PendingKeyAnswersFalse | source/ExtrasSettings.cs:1170-1176 | a key already pending answers `false`, the caches are untouched, and the `finally` block still removes the key from the pending set |
| AvailabilityCache.PendingAlwaysCleared | source/ExtrasSettings.cs:1279-1286 | on every exit the key leaves the pending set and no other pending key changes, so between sequential calls the set stays empty |
| AvailabilityCache.HitAnswersCached | source/ExtrasSettings.cs:1178-1185 | a fresh cached answer is returned and the whole state is unchanged |
| AvailabilityCache.MissStoresAnswer | source/ExtrasSettings.cs:1227-1269 | on a miss that does not throw, the answer is stored under `<id>:<pathType>` as `(answer, now)` |
| AvailabilityCache.ThrowStoresNothing | source/ExtrasSettings.cs:1271-1278 | when reading the menu items throws, the answer is `false` and nothing is stored under the key |
| AvailabilityCache.MissAnswerMeaning | source/ExtrasSettings.cs:1211-1269 | outside a hit, the answer is `true` iff the key is not pending, the companion plugin is found, its menu items are read, one passes the keyword predicate and the folder check succeeds |
| AvailabilityCache.TrueNeedsEvidence | source/ExtrasSettings.cs:1227-1265 | a `true` answer is a cached `true`, or comes with a found plugin, a loaded data file and an existing folder |
| AvailabilityCache.OtherResultsKept | source/ExtrasSettings.cs:1186-1209 | for other keys a check adds or changes no answer, and it drops only answers expired at `now` |
| AvailabilityCache.AdmitKeepsOthers | source/ExtrasSettings.cs:1186-1209 | the stale-entry removal and the sweep drop, of the other keys, only expired entries and change none |
| AvailabilityCache.AdmitSweepsWhenFull | source/ExtrasSettings.cs:1186-1209 | when more than 20 answers remain after the key's own entry is dropped, every answer left is fresh; at 20 or fewer, every other answer stays as it was, expired or not |
| AvailabilityCache.MenuLookupSweepsWhenFull | source/ExtrasSettings.cs:1298-1333 | on a miss, when more than 10 entries remain after the game's own entry is dropped, every entry left, the new one included, is fresh; at 10 or fewer, every other entry stays as it was |
| AvailabilityCache.ResolveKeepsOthers | source/ExtrasSettings.cs:1227-1269 | resolving a miss writes only the entry of its own key |
| AvailabilityCache.TryOpen | source/ExtrasSettings.cs:1337-1389 | an item is chosen iff the plugin is found by its identifier alone, its menu items are read and one passes the keyword predicate; the chosen item is the first that passes it; without the plugin the menu cache is untouched, with it the menu cache is the one the cached menu lookup leaves |
| AvailabilityCache.OpenImpliesCheckFindsItem | source/ExtrasSettings.cs:1342-1371 | whenever the open command chooses an item, the availability check finds the plugin, reads the same items and selects one as well |
| AvailabilityCache.CommandCache.constructor | source/ExtrasSettings.cs:505-520 | both caches and the pending set start empty |
| AvailabilityCache.CommandCache.GetCachedMenuItems | source/ExtrasSettings.cs:1290-1334 | the new menu cache and the result are those of `MenuLookup` on the old cache |
| AvailabilityCache.CommandCache.AdmitKey | source/ExtrasSettings.cs:1186-1209 | removes the stale entry, marks the key pending, and sweeps when over 20 entries |
| AvailabilityCache.CommandCache.ResolveMiss | source/ExtrasSettings.cs:1211-1269 | the new state and the answer are those of `Resolve` on the old state |
| AvailabilityCache.CommandCache.AttemptCheck | source/ExtrasSettings.cs:1164-1270 | the `try` block: the new state and the answer are those of `Attempt` |
| AvailabilityCache.CommandCache.CheckSaveFileViewPlugin | source/ExtrasSettings.cs:1162-1287 | the new state and the answer are those of `Check`: the attempt, then the key removed from the pending set |
| AvailabilityCache.CommandCache.TryOpenWithSaveFileViewPlugin | source/ExtrasSettings.cs:1337-1389 | the new menu cache and the chosen item are those of `TryOpen` |
| SaveFileView.FindPlugin | source/ExtrasSettings.cs:1213-1225 | `FirstOrDefault`: nothing iff no plugin qualifies, and otherwise the first plugin that does |
| SaveFileView.CheckLookupIsWider | source/ExtrasSettings.cs:1342-1348 | every plugin the open command accepts (identifier only) is accepted by the check's lookup too |
| SaveFileView.TypeNameOnlyMatchesCheck | source/ExtrasSettings.cs:1224 | a plugin recognised only by its type name is found by the check's lookup and not by the open command's |
| SaveFileView.RelevantItemMeaning | source/ExtrasSettings.cs:1235-1253 | an item is selected iff its lower-cased description holds `save` (for `pathType == "save"`, else `config`) and one of `open`, `directory`, `folder` |
| SaveFileView.NullDescriptionNeverRelevant | source/ExtrasSettings.cs:1237 | a null description counts as the empty string, so the item is never selected |
| SaveFileView.RelevanceIgnoresCase | source/ExtrasSettings.cs:1237 | descriptions equal up to case are selected alike |
| SaveFileView.SaveDescriptionExample | source/ExtrasSettings.cs:1239-1252 | "Open Save Directory" is selected for `save` and not for `config` |
| SaveFileView.SelectRelevantItem | source/ExtrasSettings.cs:1235-1253 | nothing for a null list; otherwise the first item passing the predicate, or nothing iff none does |
| Resolver.ReplacementTable | source/ExtrasSettings.cs:1903-1960 | starts with the fixed table; no token is empty |
| Resolver.ReplacementTokensDistinct | source/ExtrasSettings.cs:1905-1951 | the table's tokens are pairwise different, as dictionary keys are |
| Resolver.ReplacementInstallerTokens | source/ExtrasSettings.cs:1940-1957 | `{{p\|steam}}` is present iff Steam's directory is known and non-empty; `{{p\|uplay}}` is present unless the registry gives an empty `InstallDir`, because a missing one falls back to the default launcher directory |
| Resolver.UbisoftDirectory | source/ExtrasSettings.cs:2151-2172 | the default launcher directory when the registry gives nothing; otherwise a value without forward slashes, empty iff the registry value is empty |
| Resolver.UbisoftDirectoryKeepsClean | source/ExtrasSettings.cs:2161-2164 | a registry value with no `/` and no `Ubisoft Game Launcher\` is taken unchanged |
| Resolver.ReplaceKeepsOut | source/ExtrasSettings.cs:2163-2164 | a literal replacement introduces no character absent from its input and its replacement text, and with a non-empty replacement text the result is empty iff the input is |
| Resolver.ReplacementExcludedTokens | source/ExtrasSettings.cs:1972-1977 | the table never holds `{{p|game}}` or a registry token |
| Resolver.ApplyReplacements | source/ExtrasSettings.cs:2004-2007 | the loop over the table gives the tokens' replacements applied in table order |
| Resolver.AddCandidates | source/ExtrasSettings.cs:1981-2022 | one iteration appends exactly the entry's candidates |
| Resolver.AppendMatches | source/ExtrasSettings.cs:2015-2021 | appends the expanded paths that are not empty, in order |
| Resolver.Distinct | source/ExtrasSettings.cs:2025 | case-sensitive `Distinct()`: no repeats, and the same members as its input |
| Resolver.ExistingDirs | source/ExtrasSettings.cs:2025-2035 | every result is an existing directory or the parent of an existing file in the input; every input that is an existing directory is in the result, and so is the parent of every input that is an existing file; the result is empty iff no input exists |
| Resolver.ProbeCandidates | source/ExtrasSettings.cs:2025-2035 | the probing loop computes `ExistingDirs` |
| Resolver.GetAvailableDirsFromSaveFileViewData | source/ExtrasSettings.cs:1962-2038 | the method returns `AvailableDirs`, the probe of the distinct candidates of all entries |
| Resolver.RelevantEntries | source/ExtrasSettings.cs:1979-1995 | keeps only entries of the requested type without a registry token |
| Resolver.IrrelevantEntriesIgnored | source/ExtrasSettings.cs:1979-1995 | entries of another type or with `{{p|hkcu}}`, `{{p|hklm}}` or `{{p|wow64}}` (any case) contribute nothing |
| Resolver.PathDefinitionsMembers | source/ExtrasSettings.cs:1979-2023 | a path is a candidate iff some entry contributes it |
| Resolver.CandidateShapes | source/ExtrasSettings.cs:1997-2022 | an irrelevant entry gives nothing; a substituted path without `*` gives exactly itself; with `*`, only non-empty existing paths under its drive, and every expansion of the pattern |
| Resolver.AvailableDirsMeaning | source/ExtrasSettings.cs:2025-2037 | the result is non-empty iff some candidate exists; each result is an existing directory or the parent of an existing file; every candidate that is an existing directory, and the parent of every candidate that is an existing file, is in the result |
| Resolver.GameTokenIsCaseSensitive | source/ExtrasSettings.cs:1999-2002 | `{{P|GAME}}` is not replaced by the install directory |
| Resolver.LiteralCandidate | source/ExtrasSettings.cs:1997-2012 | a non-registry path without `*` and `{{p\|game}}` in which no table token occurs (ignoring case) is its own single candidate, however long |
| Resolver.ApplyTableUnchanged | source/ExtrasSettings.cs:2004-2007 | applying the table to a text in which no token occurs, ignoring case, leaves it unchanged |
| Resolver.ParentsNotDeduplicated | source/ExtrasSettings.cs:2025-2035 | two files in one folder give that folder twice: the list is not deduplicated after mapping files to parents |
| Resolver.FoldersExist | source/ExtrasSettings.cs:1859-1901 | `true` iff the data file is loaded with a non-empty list and some candidate exists as a directory or a file |
| Resolver.CheckActualFoldersExist | source/ExtrasSettings.cs:1859-1901 | the method returns `FoldersExist` |
| Wildcards.FirstGlob | source/ExtrasSettings.cs:2077-2080 | the index of the first segment holding `*` or `?`, with none before it |
| Wildcards.GetAllMatchingPaths | source/ExtrasSettings.cs:2049-2068 | every result exists and starts with the pattern's first segment and a separator (membership exactly: `Wildcards.GetAllMatchingPathsMeaning`) |
| Wildcards.GetAllMatchingPathsMeaning | source/ExtrasSettings.cs:2049-2068 | a path is yielded iff the first segment has no glob and the path is an expansion (`Expands`) of the remaining segments under it |
| Wildcards.GlobInDriveYieldsNothing | source/ExtrasSettings.cs:2056-2059 | a glob in the first segment yields nothing |
| Wildcards.LiteralPatternYieldsItself | source/ExtrasSettings.cs:2117-2123 | a pattern with no glob yields `root + sep + pattern` iff that path exists, and nothing otherwise |
| Wildcards.LiteralPathYieldsItself | source/ExtrasSettings.cs:2049-2062 | a full path with no glob yields itself iff it exists |
| Wildcards.ResultsUnderGlobParent | source/ExtrasSettings.cs:2081-2086 | every result lies under the directory before the first glob segment, and nothing is yielded when that directory is missing |
| Wildcards.MatchingPathsInternal | source/ExtrasSettings.cs:2070-2129 | every result exists and starts with the literal root and a separator (membership exactly: `Wildcards.InternalMeaning`) |
| Wildcards.InternalMeaning | source/ExtrasSettings.cs:2070-2129 | a path is yielded iff it is an expansion of the pattern's segments: literal segments joined onto the root up to the first glob segment, whose directory must exist; a last glob segment matches the listed entries; a middle one recurses into each listed directory that matches |
| Wildcards.MatchingPathsUnder | source/ExtrasSettings.cs:2102-2112 | every result of the `SelectMany` exists and lies under one of the enumerated directories (membership exactly: `Wildcards.UnderMembers`) |
| Wildcards.UnderMembers | source/ExtrasSettings.cs:2102-2112 | a path is in the `SelectMany` iff the recursive expansion under one of the enumerated directories yields it |
| Paths.Combine | source/ExtrasSettings.cs:1830 | `Path.Combine`: the second path when the first is empty or when the second is rooted (a leading separator or a drive letter), the first when the second is empty; otherwise the two joined directly when the first ends in a separator or `:`, and with one added separator when it does not |
| Paths.CombineChecked | source/ExtrasSettings.cs:1830 | throws iff either argument holds `"`, `<`, `>`, `\|` or a control character, and otherwise is `Combine` |
| Paths.ParentDir | source/ExtrasSettings.cs:2033 | `Path.GetDirectoryName` is a prefix, strictly shorter for a non-empty path; it is empty when the path has no separator, and otherwise the path up to its last separator, or the root itself when that separator belongs to the root |
| Paths.ListMatching | source/ExtrasSettings.cs:2090-2098 | the listing keeps exactly the entries directly in the directory whose name matches the search pattern |
| Paths.StarMatchesAll | source/ExtrasSettings.cs:2091 | the search pattern `*` matches every name |
| Paths.LiteralPatternMatch | source/ExtrasSettings.cs:2091 | a search pattern without wildcards matches exactly the names equal to it up to case |
| Strings.Lower | source/ExtrasSettings.cs:1237 | `ToLower` keeps the length, leaves no `A`-`Z`, and changes a character only by moving an upper-case ASCII letter 32 code points down |
| Strings.LowerIdempotent | source/ExtrasSettings.cs:1237 | lower-casing twice is lower-casing once |
| Strings.ContainsIff | source/ExtrasSettings.cs:1240-1252 | `Contains` holds iff the text occurs at some position |
| Strings.Trim | source/ExtrasSettings.cs:1810 | the result starts and ends with no white space and is empty iff the input is blank (its position in the input: `Strings.TrimKeepsMiddle`) |
| Strings.TrimKeepsMiddle | source/ExtrasSettings.cs:1810 | the trimmed text is a contiguous slice of the input with only white space before and after it |
| Strings.Split | source/ExtrasSettings.cs:2054 | `Split` gives at least one piece (its shape: `Strings.SplitShape`) |
| Strings.SplitShape | source/ExtrasSettings.cs:2054 | `Split` gives exactly one more piece than there are separators, and no piece holds the separator |
| Strings.JoinSplit | source/ExtrasSettings.cs:2061-2062 | joining the pieces of a split restores the pattern |
| Strings.SplitJoin | source/ExtrasSettings.cs:2107-2111 | splitting a join of separator-free pieces gives the pieces back |
| Strings.RemoveChar | source/ExtrasSettings.cs:451 | `Replace("@", "")` leaves no `@`, is shorter by exactly the number of `@`, keeps the count of every other character, and returns a text without `@` unchanged |
| Strings.RemoveCharAppend | source/ExtrasSettings.cs:451 | removal works piecewise on a concatenation, so the other characters keep their order |
| Strings.SplitNonEmptyFacts | source/ExtrasSettings.cs:452 | splitting without empty entries gives non-empty, separator-free pieces that concatenate to the string without separators |
| Strings.ReplaceAbsent | source/ExtrasSettings.cs:2040-2047 | a replacement whose search text does not occur changes nothing |
| Strings.ReplaceWithoutOccurrence | source/ExtrasSettings.cs:2040-2047 | when the search text does not occur under the comparison used (case-insensitive for `ReplaceCaseInsensitive`), the text is returned unchanged |
| Strings.ReplaceSplices | source/ExtrasSettings.cs:2040-2047 | replacement is literal splicing, in either comparison mode: the text before the first occurrence is kept, the occurrence (in whatever case the comparison accepts) becomes the replacement verbatim, and the rest is replaced in turn |
| Json.GetFirst | source/ExtrasSettings.cs:1705 | a property lookup finds nothing iff no property has the name, and otherwise the value of the first property that has it |
| Json.PropsIn | source/ExtrasSettings.cs:1774 | `DescendantsAndSelf().OfType<JProperty>()` includes every property of the object itself (every property at any depth, exactly: `Json.PropsInMeaning`) |
| Json.PropsInMeaning | source/ExtrasSettings.cs:1774 | a property is enumerated iff it occurs at some depth of the document, inside objects and arrays alike |
| Screenshots.GamesArray | source/ExtrasSettings.cs:1674-1700 | a top-level array is the games array; in an object, the first array property whose first element is an object with `Id`; nothing for any other document |
| Screenshots.FolderEntriesMembers | source/ExtrasSettings.cs:1715-1722 | a folder is collected iff some item of the array is an object whose `ScreenshotsFolder` is that non-empty text |
| Screenshots.FolderEntriesAppend | source/ExtrasSettings.cs:1715-1722 | the folders are collected item by item in array order |
| Screenshots.CollectFolders | source/ExtrasSettings.cs:1715-1722 | the `foreach` loop collects `FolderEntries` |
| Screenshots.ConfigFolders | source/ExtrasSettings.cs:1667-1724 | configured folders are non-empty, and come only from a parsed file with a games array holding the game's entry (which entry: `Screenshots.ConfigFoldersOfFirstEntry`) |
| Screenshots.ConfigFoldersOfFirstEntry | source/ExtrasSettings.cs:1701-1722 | the folders are those of the first entry whose `Id` equals the game's identifier ignoring case, and none when that entry has no `ScreenshotsFolders` array |
| Screenshots.ScreenshotValues | source/ExtrasSettings.cs:1773-1795 | the roots are exactly the expanded string values of the properties whose name mentions `screenshot` and whose value is not blank |
| Screenshots.ConfigRootsMeaning | source/ExtrasSettings.cs:1766-1795 | a root comes from Playnite's configuration iff the parsed document is an object or array and a screenshot property at some depth names it |
| Screenshots.TrimmedRoots | source/ExtrasSettings.cs:1808-1810 | the kept roots are exactly the trimmed forms of the non-blank roots |
| Screenshots.DistinctIgnoreCase | source/ExtrasSettings.cs:1811 | no two results are equal up to case, each comes from the input, and every input has a case-insensitive match among them |
| Screenshots.ExistingRoots | source/ExtrasSettings.cs:1812 | exactly the existing roots are kept, and distinctness is preserved |
| Screenshots.UniqueRoots | source/ExtrasSettings.cs:1808-1812 | the probed roots exist, are not blank and are distinct up to case (coverage: `Screenshots.UniqueRootsCover`) |
| Screenshots.UniqueRootsCover | source/ExtrasSettings.cs:1773-1812 | on a filesystem whose directory lookups ignore case, every configured or default root that is not blank and exists once trimmed is probed in some spelling |
| Screenshots.Sanitized | source/ExtrasSettings.cs:1839-1856 | a blank value is returned as it is; otherwise each invalid file-name character becomes `_` and every other character is kept |
| Screenshots.SanitizedIdempotent | source/ExtrasSettings.cs:1839-1856 | sanitizing twice equals sanitizing once |
| Screenshots.SanitizedIsUsableName | source/ExtrasSettings.cs:1839-1856 | a sanitized non-blank name is non-blank and has no character `Path.Combine` rejects |
| Screenshots.SanitizePathSegment | source/ExtrasSettings.cs:1839-1856 | the buffer loop computes `Sanitized` |
| Screenshots.NonBlank | source/ExtrasSettings.cs:1828 | keeps exactly the non-blank names |
| Screenshots.NameCandidates | source/ExtrasSettings.cs:1814-1824 | exactly the game's name and its sanitized form (when the name is not blank), then the identifier (when it is not blank), in that order; no other name is probed |
| Screenshots.ProbeRoot | source/ExtrasSettings.cs:1828-1835 | the candidates under a root that exist, and all of them |
| Screenshots.Probe | source/ExtrasSettings.cs:1826-1836 | every folder found is an existing combination of a root and a name, and every such combination is found |
| Screenshots.ProbeRootAsWritten | source/ExtrasSettings.cs:1828-1835 | as written, probing throws iff some name makes `Path.Combine` throw, and otherwise agrees with `ProbeRoot` |
| Screenshots.ProbeAsWritten | source/ExtrasSettings.cs:1826-1836 | as written, probing throws iff some root and name make `Path.Combine` throw, and otherwise agrees with `Probe` |
| Screenshots.PlayniteFolders | source/ExtrasSettings.cs:1755-1837 | corrected (see Findings): a folder is found iff it is an existing combination of a probed root and a name candidate that `Path.Combine` accepts |
| Screenshots.AddMissingExtends | source/ExtrasSettings.cs:1740-1750 | the given list is kept as a prefix, and only found folders are appended |
| Screenshots.AddMissingCovers | source/ExtrasSettings.cs:1740-1750 | afterwards every found folder is present up to case |
| Screenshots.AddMissingKeepsDistinct | source/ExtrasSettings.cs:1740-1750 | a list distinct up to case stays so |
| Screenshots.AddMissingNothingNew | source/ExtrasSettings.cs:1742-1746 | when every found folder is already present up to case, the list is unchanged |
| Screenshots.AddMissingIdempotent | source/ExtrasSettings.cs:1735-1753 | adding the same folders twice equals adding them once |
| Screenshots.AppendMissing | source/ExtrasSettings.cs:1740-1750 | the append loop computes `AddMissing` |
| Screenshots.AddPlayniteScreenshotFolders | source/ExtrasSettings.cs:1735-1753 | the method throws exactly when a probed root and a name cannot be combined, and otherwise appends the missing Playnite folders to the given list |
| Screenshots.ScreenshotPathsMeaning | source/ExtrasSettings.cs:1654-1733 | corrected (see Findings): the configured folders come first and unchanged, then only existing Playnite folders; every Playnite folder is present up to case |
| Screenshots.GetScreenshotPathsFromConfig | source/ExtrasSettings.cs:1654-1733 | the method returns the code as written (`ScreenshotPathsAsWritten`), and when it does not throw, the corrected `ScreenshotPaths` |
| Screenshots.AsWrittenAgreesOnValidNames | source/ExtrasSettings.cs:1826-1836 | when no root and no name holds a character `Path.Combine` rejects, the code as written gives the corrected result |
| Screenshots.InvalidNameAbortsProbe | source/ExtrasSettings.cs:1826-1836 | a game name with a rejected character makes the probing throw |
| Screenshots.InvalidNameAbortsLookup | source/ExtrasSettings.cs:1830 | such a name makes the whole lookup throw as written, while the corrected lookup finds the sanitized folder |
| Screenshots.SanitizedFolderProbed | source/ExtrasSettings.cs:1814-1836 | an existing folder named after the sanitized name under a probed root is found |
| Menus.SectionPathFacts | source/ExtrasSettings.cs:450-454 | the path pieces are non-empty and hold no `\|` or `@`; after the skipped first piece they spell the section without both characters |
| Menus.Leaf | source/ExtrasSettings.cs:477-495 | the description `-` gives a separator, and anything else a command item |
| Menus.InsertMeaning | source/ExtrasSettings.cs:456-495 | the walk throws iff the path runs into a command item; otherwise the leaf ends up last at the end of the path |
| Menus.InsertReusesOrCreates | source/ExtrasSettings.cs:459-475 | when an entry already has the section's header, the first such entry becomes the updated submenu with that header, every other entry of the level stays as it was and the level keeps its length; otherwise the level is kept as a prefix and exactly one submenu with that header is appended |
| Menus.InsertKeepsWellFormed | source/ExtrasSettings.cs:456-476 | no level ever gets two submenus with the same header |
| Menus.BuildWellFormed | source/ExtrasSettings.cs:446-496 | every menu the builder produces has unique submenu headers at every level |
| Menus.BuildMenu | source/ExtrasSettings.cs:446-496 | the outer loop computes `Build` |
| Menus.CreateGameMenuItems | source/ExtrasSettings.cs:442-498 | a throwing plugin or a null list throws; otherwise the result is `Build` of the items |
| Menus.FindById | source/ExtrasSettings.cs:249-258 | the getter finds a plugin iff one has the getter's identifier up to case |
| Menus.GameMenuItems | source/ExtrasSettings.cs:242-289 | a list is returned iff the view is open with a selection, the plugin is loaded and building did not throw; it starts with the settings item, then a separator or nothing |
| Menus.GameMenuItemsMeaning | source/ExtrasSettings.cs:273-277 | the list is the settings item alone for an empty menu, and otherwise the settings item, a separator and the built menu |

## Left out

- WPF and host glue is left out: view switching, key bindings, notifications, dialogs, `Process.Start`, the settings view model, and `CanExecute`/`Execute` of the commands. It is not logic over data.
- `HasScreenshotsVisualizerPlugin` and the other small command helpers outside the named operations are left out.
- The registry reads of Steam's `InstallPath` and Ubisoft Connect's `InstallDir` and the `Environment.GetFolderPath` and `Environment.UserName` values are OS calls. They are the inputs `Machine.steam`, `Machine.uplayInstallDir` and `SpecialFolders`. A missing key or value and an exception while reading are both an absent value: Steam's token is then left out, and Ubisoft Connect's directory falls back to the default launcher directory (`Resolver.UbisoftDirectory`).
- JSON parsing (`JToken.Parse`, `Serialization.FromJsonFile`) is not modelled. The documents are the `Json` value or `ConfigFile.Corrupt`, and a data file is `PluginData`. Duplicate property names in one object are not modelled.
- `ScalarText` gives a fixed text for numbers and booleans. .NET's number formatting is not modelled.
- `Environment.ExpandEnvironmentVariables` is the parameter `expand`.
- Locks and concurrency are left out: the cache is sequential. `DateTime.Now` is the parameters `now` and `menuNow`.
- The invocation of the chosen item's `Action` in `TryOpenWithSaveFileViewPlugin` is a foreign call. The model returns the chosen item. The model does not cover exceptions thrown by that action.
- Case-insensitive comparison and `ToLower` fold ASCII letters only. Culture rules are not modelled.
- The filesystem compares paths literally. Windows' case-insensitive paths and 8.3 short names are not modelled.
- Windows search-pattern quirks of `Directory.EnumerateFiles` are not modelled; only `*` and `?` are matched.
- The file part of `Path.GetDirectoryName` is modelled. Its normalisation of separators is not.
- `Regex.Replace` treats `$` in the replacement specially. The model splices the replacement verbatim, so a replacement value holding `$` is not modelled.
- A null `Path` in a data-file entry, a null replacement value and null items in a menu list are not modelled.
- `CreateGameMenuItems` passes only the first selected game to the plugin. The plugin's answer is an input, so the selection is not modelled.
- The menu tree is a value. The nested `ObservableCollection`s are not shared and mutated in place, and `ItemsSource` aliasing is not modelled.
- `Resolver.ReplacementTable` states the table's shape rather than the exact value. The exact value is its body.
- The final list of the resolver is not deduplicated ignoring case: `Distinct()` at line 2025 is case-sensitive and runs before files are mapped to their parents (see `Resolver.ParentsNotDeduplicated`).
- Configured screenshot folders may repeat; only Playnite folders already present are skipped.
- Exceptions of the filesystem itself (access denied, a path too long, a device not ready) are not modelled. The filesystem is a value, so the `catch` blocks of `GetAllMatchingPaths` (lines 2063-2067) and `CheckActualFoldersExist` (lines 1892-1897) that turn such an exception into no paths or `false` have nothing to catch in the model.
- `folderObj["ScreenshotsFolder"]?.ToString()` at line 1717 gives the formatted JSON of an object or array value; `FolderOf` treats such a value as naming no folder, since the JSON text of a container is not modelled.
- Screenshots.AddPlayniteScreenshotFolders: when the lookup throws, the folders already appended to the caller's list before the throw are not modelled; the method returns `Thrown`, and the caller in this code discards the list in that case.
- Screenshots.UniqueRootsCover needs the hypothesis that directory lookups ignore case, because the model's filesystem compares paths literally.
- The exception of `Path.Combine` at line 1830 also escapes the `CanExecute` delegate at lines 1003-1027, which calls `GetScreenshotPathsFromConfig`; that delegate is host glue and is not modelled.

## Findings

| source | as written | input that shows it | evidently intended | confidence | as-written member | corrected member |
|---|---|---|---|---|---|---|
| source/ExtrasSettings.cs:1830 | `Path.Combine(root, name)` runs on the raw game name. Under .NET Framework it throws on `"`, `<`, `>` or `\|`. The exception escapes `GetScreenshotPathsFromConfig`, so every screenshot folder is lost. | A game named `Halo: "Reach"` with an existing `Screenshots\Halo_ _Reach_` folder under a probed root | the raw name is skipped and the sanitized name is probed, which is why `SanitizePathSegment` is called at line 1818 | medium, not executed | Screenshots.InvalidNameAbortsLookup | Screenshots.SanitizedFolderProbed |
