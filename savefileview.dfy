/** The companion SaveFileView plugin as the command layer sees it: how the
    plugin is recognised among the loaded plugins, and which of its game
    menu items opens the save or the config folders. */
module SaveFileView {

  import opened Wrappers
  import opened Strings
  import opened Seqs
  import opened Playnite

  /** The companion plugin's identifier. */
  const CompanionId := "f68f302b-9799-4b77-a982-4bfca97130e2"

  /** The plugin as the availability check recognises it: its identifier in
      either spelling, compared ignoring case, or `savefileview` in the
      lower-cased name of its type. */
  predicate IsCompanion(p: Plugin)
  {
    || EqualsIgnoreCase(p.id, CompanionId)
    || EqualsIgnoreCase(p.id, "SaveFileView_" + CompanionId)
    || Contains(Lower(p.typeName), "savefileview")
  }

  /** The plugin as the open command recognises it: the identifier only. */
  predicate HasCompanionId(p: Plugin)
  {
    EqualsIgnoreCase(p.id, CompanionId)
  }

  /** The first loaded plugin satisfying `p`. */
  function FindPlugin(plugins: seq<Plugin>, p: Plugin -> bool): (r: Option<Plugin>)
    ensures r.None? <==> forall i :: 0 <= i < |plugins| ==> !p(plugins[i])
    ensures r.Some? ==> exists i :: 0 <= i < |plugins| && plugins[i] == r.value && p(r.value)
                                    && forall j :: 0 <= j < i ==> !p(plugins[j])
  {
    match FirstWhere(plugins, p)
    case None => None
    case Some(i) => Some(plugins[i])
  }

  /** Every plugin the open command accepts, the availability check accepts
      too, so the check finds a plugin whenever the command does. */
  lemma CheckLookupIsWider(plugins: seq<Plugin>)
    ensures FindPlugin(plugins, HasCompanionId).Some? ==> FindPlugin(plugins, IsCompanion).Some?
  {
    if FindPlugin(plugins, HasCompanionId).Some? {
      var i :| 0 <= i < |plugins| && HasCompanionId(plugins[i]);
      assert IsCompanion(plugins[i]);
    }
  }

  /** The two lookups differ: a plugin recognised by its type name alone
      makes the folders available while the open command finds no plugin. */
  lemma TypeNameOnlyMatchesCheck()
    ensures var plugins := [Plugin("00000000-0000-0000-0000-000000000000", "SaveFileViewPlugin")];
            FindPlugin(plugins, IsCompanion).Some? && FindPlugin(plugins, HasCompanionId).None?
  {
    var p := Plugin("00000000-0000-0000-0000-000000000000", "SaveFileViewPlugin");
    assert Lower(p.typeName)[..12] == "savefileview";
    assert IsCompanion(p);
    assert Lower(p.id)[0] != Lower(CompanionId)[0];
    assert !HasCompanionId(p);
  }

  /** The keyword a description must contain: `save` for the save type and
      `config` for any other type. */
  function Keyword(pathType: string): string
  {
    if pathType == "save" then "save" else "config"
  }

  /** The lower-cased description, a null one read as the empty string. */
  function DescriptionText(item: GameMenuItem): string
  {
    Lower(if item.description.Some? then item.description.value else "")
  }

  /** The description names an action on a location. */
  predicate NamesAction(d: string)
  {
    Contains(d, "open") || Contains(d, "directory") || Contains(d, "folder")
  }

  /** The keyword predicate of the menu item selection. */
  predicate IsRelevantItem(item: GameMenuItem, pathType: string)
  {
    var d := DescriptionText(item);
    Contains(d, Keyword(pathType)) && NamesAction(d)
  }

  /** The predicate in terms of positions: the lower-cased description holds
      the keyword somewhere and one of the three action words somewhere. */
  lemma RelevantItemMeaning(item: GameMenuItem, pathType: string)
    ensures var d := DescriptionText(item);
            IsRelevantItem(item, pathType) <==>
              && (exists i :: OccursAt(d, Keyword(pathType), i))
              && ((exists i :: OccursAt(d, "open", i)) || (exists i :: OccursAt(d, "directory", i))
                  || (exists i :: OccursAt(d, "folder", i)))
  {
    var d := DescriptionText(item);
    ContainsIff(d, Keyword(pathType));
    ContainsIff(d, "open");
    ContainsIff(d, "directory");
    ContainsIff(d, "folder");
  }

  /** An item without a description is never selected. */
  lemma NullDescriptionNeverRelevant(section: Option<string>, pathType: string)
    ensures !IsRelevantItem(GameMenuItem(section, None), pathType)
  {
    assert DescriptionText(GameMenuItem(section, None)) == [];
  }

  /** The case of the description does not matter. */
  lemma RelevanceIgnoresCase(a: string, b: string, section: Option<string>, pathType: string)
    requires EqualsIgnoreCase(a, b)
    ensures IsRelevantItem(GameMenuItem(section, Some(a)), pathType)
        <==> IsRelevantItem(GameMenuItem(section, Some(b)), pathType)
  {
  }

  lemma ExampleLowered(desc: string)
    requires desc == "Open Save Directory"
    ensures Lower(desc) == "open save directory"
  {
    assert Lower(desc)[0] == 'o' && Lower(desc)[5] == 's' && Lower(desc)[10] == 'd';
  }

  /** A typical description selects the item for the save type and not for
      the config type. */
  lemma SaveDescriptionExample(desc: string)
    requires desc == "Open Save Directory"
    ensures var item := GameMenuItem(None, Some(desc));
            IsRelevantItem(item, "save") && !IsRelevantItem(item, "config")
  {
    ExampleLowered(desc);
    ExampleHasSave(Lower(desc));
    ExampleHasOpen(Lower(desc));
    MissingCharNotContained(Lower(desc), "config", 'g');
  }

  lemma ExampleHasSave(d: string)
    requires d == "open save directory"
    ensures Contains(d, "save")
  {
    assert OccursAt(d, "save", 5);
    ContainsIff(d, "save");
  }

  lemma ExampleHasOpen(d: string)
    requires d == "open save directory"
    ensures Contains(d, "open")
  {
    assert OccursAt(d, "open", 0);
    ContainsIff(d, "open");
  }

  /** `menuItems?.FirstOrDefault(...)`: the first item the keyword predicate
      accepts; nothing when the plugin gave no list. */
  function SelectRelevantItem(items: Option<seq<GameMenuItem>>, pathType: string): (r: Option<GameMenuItem>)
    ensures r.Some? <==> items.Some? && exists i :: 0 <= i < |items.value| && IsRelevantItem(items.value[i], pathType)
    ensures r.Some? ==> exists i :: 0 <= i < |items.value| && items.value[i] == r.value
                                    && IsRelevantItem(r.value, pathType)
                                    && forall j :: 0 <= j < i ==> !IsRelevantItem(items.value[j], pathType)
  {
    if items.None? then None
    else
      match FirstWhere(items.value, item => IsRelevantItem(item, pathType))
      case None => None
      case Some(i) => Some(items.value[i])
  }
}
