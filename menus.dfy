/** The game menu of a companion plugin as the theme shows it:
    `CreateGameMenuItems` builds a tree of menu items from the plugin's flat
    list, following each item's `MenuSection`, and the menu getters put a
    settings item (and a separator when there is anything else) in front. */
module Menus {

  import opened Wrappers
  import opened Strings
  import opened Seqs
  import opened Playnite
  import opened SaveFileView

  /** An entry of the built menu: a submenu with its header and children,
      an item running a plugin item's action under its description, a
      separator, or the settings item the getters add. */
  datatype MenuEntry =
    | Submenu(header: string, children: seq<MenuEntry>)
    | Command(caption: Option<string>, source: GameMenuItem)
    | Separator
    | Settings(pluginId: string)

  /** The submenu path of a `MenuSection`: every `@` removed, split at `|`
      without empty pieces, the first piece skipped. */
  function SectionPath(menuSection: string): seq<string>
  {
    var pieces := SplitNonEmpty(RemoveChar(menuSection, '@'), '|');
    if pieces == [] then [] else pieces[1..]
  }

  /** Every section of a path is non-empty and holds neither `|` nor `@`;
      together with the skipped first piece they spell the section with
      both characters removed. */
  lemma SectionPathFacts(menuSection: string)
    ensures var p := SectionPath(menuSection);
            forall i :: 0 <= i < |p| ==> p[i] != [] && '|' !in p[i] && '@' !in p[i]
    ensures var pieces := SplitNonEmpty(RemoveChar(menuSection, '@'), '|');
            pieces != [] ==> pieces[0] + Concat(SectionPath(menuSection)) == RemoveChar(RemoveChar(menuSection, '@'), '|')
  {
    var s := RemoveChar(menuSection, '@');
    SplitNonEmptyFacts(s, '|');
    SplitPiecesFrom(s, '|', '@');
    var pieces := SplitNonEmpty(s, '|');
    forall i | 0 <= i < |pieces| ensures '@' !in pieces[i] {
      assert pieces[i] in Split(s, '|');
    }
  }

  /** A menu item (not a separator) whose header is the section. */
  predicate IsNamed(e: MenuEntry, section: string)
  {
    (e.Submenu? && e.header == section) || (e.Command? && e.caption == Some(section))
  }

  /** The entry a plugin item becomes: a separator for the description
      `-`, and otherwise an item captioned with the description. */
  function Leaf(item: GameMenuItem): (r: MenuEntry)
    ensures r.Separator? <==> item.description == Some("-")
    ensures r.Command? <==> item.description != Some("-")
  {
    if item.description == Some("-") then Separator else Command(item.description, item)
  }

  /** One iteration of the outer loop: walk the path, reusing the first
      item with the section's header or creating a submenu when there is
      none, then append the leaf. Reusing a command item, whose children
      are null, throws. */
  function Insert(entries: seq<MenuEntry>, path: seq<string>, leaf: MenuEntry): Result<seq<MenuEntry>>
    decreases |path|
  {
    if path == [] then Ok(entries + [leaf])
    else
      match FirstWhere(entries, e => IsNamed(e, path[0]))
      case None =>
        (match Insert([], path[1..], leaf)
         case Thrown => Thrown
         case Ok(children) => Ok(entries + [Submenu(path[0], children)]))
      case Some(i) =>
        if entries[i].Command? then Thrown
        else
          match Insert(entries[i].children, path[1..], leaf)
          case Thrown => Thrown
          case Ok(children) => Ok(entries[i := Submenu(path[0], children)])
  }

  /** Where a path leads in a menu: to a submenu's children (or the menu
      itself for the empty path), nowhere yet, or into a command item. */
  datatype Reached = Found(children: seq<MenuEntry>) | Missing | Blocked

  /** Following a path the way the builder does. */
  function Reach(entries: seq<MenuEntry>, path: seq<string>): Reached
    decreases |path|
  {
    if path == [] then Found(entries)
    else
      match FirstWhere(entries, e => IsNamed(e, path[0]))
      case None => Missing
      case Some(i) => if entries[i].Submenu? then Reach(entries[i].children, path[1..]) else Blocked
  }

  /** The entries already at the end of a path. */
  function Existing(r: Reached): seq<MenuEntry>
  {
    if r.Found? then r.children else []
  }

  /** The builder throws exactly when the path runs into a command item;
      otherwise the leaf ends up last at the end of the path, after what was
      there before. */
  lemma {:induction false} InsertMeaning(entries: seq<MenuEntry>, path: seq<string>, leaf: MenuEntry)
    ensures Insert(entries, path, leaf).Thrown? <==> Reach(entries, path).Blocked?
    ensures Insert(entries, path, leaf).Ok? ==>
              Reach(Insert(entries, path, leaf).value, path) == Found(Existing(Reach(entries, path)) + [leaf])
    decreases |path|
  {
    if path != [] {
      match FirstWhere(entries, e => IsNamed(e, path[0]))
      case None =>
        InsertMeaning([], path[1..], leaf);
        InsertNewStep(entries, path, leaf);
      case Some(i) =>
        if entries[i].Submenu? {
          InsertMeaning(entries[i].children, path[1..], leaf);
          InsertExistingStep(entries, path, leaf, i);
        }
    }
  }

  /** The step of `InsertMeaning` where the section is new at this level. */
  lemma InsertNewStep(entries: seq<MenuEntry>, path: seq<string>, leaf: MenuEntry)
    requires path != [] && FirstWhere(entries, e => IsNamed(e, path[0])).None?
    requires Insert([], path[1..], leaf).Thrown? <==> Reach([], path[1..]).Blocked?
    requires Insert([], path[1..], leaf).Ok? ==>
               Reach(Insert([], path[1..], leaf).value, path[1..]) == Found(Existing(Reach([], path[1..])) + [leaf])
    ensures Insert(entries, path, leaf).Thrown? <==> Reach(entries, path).Blocked?
    ensures Insert(entries, path, leaf).Ok? ==>
              Reach(Insert(entries, path, leaf).value, path) == Found(Existing(Reach(entries, path)) + [leaf])
  {
    var named := e => IsNamed(e, path[0]);
    assert !Reach([], path[1..]).Blocked? by {
      if path[1..] != [] {
        assert FirstWhere([], e => IsNamed(e, path[1..][0])).None?;
      }
    }
    var children := Insert([], path[1..], leaf).value;
    var r := entries + [Submenu(path[0], children)];
    assert named(r[|entries|]);
    assert forall j :: 0 <= j < |entries| ==> r[j] == entries[j];
    assert FirstWhere(r, named) == Some(|entries|);
    assert Existing(Reach([], path[1..])) == [];
  }

  /** The step of `InsertMeaning` where the section names a submenu already
      at this level. */
  lemma InsertExistingStep(entries: seq<MenuEntry>, path: seq<string>, leaf: MenuEntry, i: nat)
    requires path != [] && FirstWhere(entries, e => IsNamed(e, path[0])) == Some(i)
    requires i < |entries| && entries[i].Submenu?
    requires var c := entries[i].children;
             && (Insert(c, path[1..], leaf).Thrown? <==> Reach(c, path[1..]).Blocked?)
             && (Insert(c, path[1..], leaf).Ok? ==>
                   Reach(Insert(c, path[1..], leaf).value, path[1..]) == Found(Existing(Reach(c, path[1..])) + [leaf]))
    ensures Insert(entries, path, leaf).Thrown? <==> Reach(entries, path).Blocked?
    ensures Insert(entries, path, leaf).Ok? ==>
              Reach(Insert(entries, path, leaf).value, path) == Found(Existing(Reach(entries, path)) + [leaf])
  {
    var named := e => IsNamed(e, path[0]);
    if Insert(entries[i].children, path[1..], leaf).Ok? {
      var r := entries[i := Submenu(path[0], Insert(entries[i].children, path[1..], leaf).value)];
      assert named(r[i]);
      assert forall j :: 0 <= j < i ==> r[j] == entries[j];
      assert FirstWhere(r, named) == Some(i);
    }
  }

  /** Submenu headers are unique within each level. */
  predicate DistinctSubmenus(entries: seq<MenuEntry>)
  {
    forall i, j :: 0 <= i < j < |entries| && entries[i].Submenu? && entries[j].Submenu?
                   ==> entries[i].header != entries[j].header
  }

  /** Submenu headers are unique at every level of the tree. */
  predicate WellFormed(entries: seq<MenuEntry>)
    decreases entries
  {
    && DistinctSubmenus(entries)
    && forall i :: 0 <= i < |entries| && entries[i].Submenu? ==> WellFormed(entries[i].children)
  }

  /** The builder never creates a second submenu with a header already used
      at that level. */
  lemma {:induction false} InsertKeepsWellFormed(entries: seq<MenuEntry>, path: seq<string>, leaf: MenuEntry)
    requires WellFormed(entries)
    requires leaf.Command? || leaf.Separator?
    ensures Insert(entries, path, leaf).Ok? ==> WellFormed(Insert(entries, path, leaf).value)
    decreases |path|
  {
    if path == [] {
      var r := entries + [leaf];
      assert forall i :: 0 <= i < |entries| ==> r[i] == entries[i];
    } else {
      match FirstWhere(entries, e => IsNamed(e, path[0]))
      case None =>
        InsertKeepsWellFormed([], path[1..], leaf);
        if Insert([], path[1..], leaf).Ok? {
          var r := entries + [Submenu(path[0], Insert([], path[1..], leaf).value)];
          assert forall i :: 0 <= i < |entries| ==> r[i] == entries[i];
          assert forall i :: 0 <= i < |entries| && entries[i].Submenu? ==> entries[i].header != path[0] by {
            forall i | 0 <= i < |entries| && entries[i].Submenu? ensures entries[i].header != path[0] {
              assert !IsNamed(entries[i], path[0]);
            }
          }
        }
      case Some(i) =>
        if entries[i].Submenu? {
          InsertKeepsWellFormed(entries[i].children, path[1..], leaf);
        }
    }
  }

  /** A section that names an existing item reuses it: the level keeps its
      length. Otherwise exactly one submenu is appended. */
  lemma InsertReusesOrCreates(entries: seq<MenuEntry>, path: seq<string>, leaf: MenuEntry)
    requires path != [] && Insert(entries, path, leaf).Ok?
    ensures (exists i :: 0 <= i < |entries| && IsNamed(entries[i], path[0]))
              ==> |Insert(entries, path, leaf).value| == |entries|
    ensures (forall i :: 0 <= i < |entries| ==> !IsNamed(entries[i], path[0]))
              ==> Insert(entries, path, leaf).value[..|entries|] == entries
                  && |Insert(entries, path, leaf).value| == |entries| + 1
                  && Insert(entries, path, leaf).value[|entries|].Submenu?
                  && Insert(entries, path, leaf).value[|entries|].header == path[0]
    ensures FirstWhere(entries, e => IsNamed(e, path[0])).Some? ==>
              var i := FirstWhere(entries, e => IsNamed(e, path[0])).value;
              && Insert(entries, path, leaf).value[i].Submenu?
              && Insert(entries, path, leaf).value[i].header == path[0]
              && forall j :: 0 <= j < |entries| && j != i ==> Insert(entries, path, leaf).value[j] == entries[j]
  {
  }

  /** The menu built from the first `n` plugin items (the outer loop). */
  function Build(items: seq<GameMenuItem>): Result<seq<MenuEntry>>
    decreases |items|
  {
    if items == [] then Ok([])
    else
      var last := items[|items| - 1];
      match Build(items[..|items| - 1])
      case Thrown => Thrown
      case Ok(entries) =>
        if last.menuSection.None? then Thrown
        else Insert(entries, SectionPath(last.menuSection.value), Leaf(last))
  }

  /** Every menu the builder produces is well formed. */
  lemma {:induction false} BuildWellFormed(items: seq<GameMenuItem>)
    ensures Build(items).Ok? ==> WellFormed(Build(items).value)
    decreases |items|
  {
    if items != [] {
      var last := items[|items| - 1];
      BuildWellFormed(items[..|items| - 1]);
      if Build(items[..|items| - 1]).Ok? && last.menuSection.Some? {
        InsertKeepsWellFormed(Build(items[..|items| - 1]).value, SectionPath(last.menuSection.value), Leaf(last));
      }
    }
  }

  /** `CreateGameMenuItems`: the plugin's items, asked for the first
      selected game, are inserted one by one. A null list, a null
      `MenuSection` or a reused command item throws. */
  method CreateGameMenuItems(fetched: Result<Option<seq<GameMenuItem>>>) returns (r: Result<seq<MenuEntry>>)
    ensures r == (if fetched.Ok? && fetched.value.Some? then Build(fetched.value.value) else Thrown)
  {
    if fetched.Thrown? || fetched.value.None? {
      return Thrown;
    }
    r := BuildMenu(fetched.value.value);
  }

  /** The outer loop of `CreateGameMenuItems`. */
  method BuildMenu(items: seq<GameMenuItem>) returns (r: Result<seq<MenuEntry>>)
    ensures r == Build(items)
  {
    var menuItems: seq<MenuEntry> := [];
    var k := 0;
    while k < |items|
      invariant 0 <= k <= |items|
      invariant Build(items[..k]) == Ok(menuItems)
    {
      var item := items[k];
      BuildStep(items, k);
      if item.menuSection.None? {
        BuildStaysThrown(items, k + 1);
        return Thrown;
      }
      var inserted := Insert(menuItems, SectionPath(item.menuSection.value), Leaf(item));
      if inserted.Thrown? {
        BuildStaysThrown(items, k + 1);
        return Thrown;
      }
      menuItems := inserted.value;
      k := k + 1;
    }
    assert items[..k] == items;
    r := Ok(menuItems);
  }

  /** One more item: the build of the first `k + 1` items inserts the
      `k`-th into the build of the first `k`. */
  lemma BuildStep(items: seq<GameMenuItem>, k: nat)
    requires k < |items| && Build(items[..k]).Ok?
    ensures Build(items[..k + 1]) ==
              if items[k].menuSection.None? then Thrown
              else Insert(Build(items[..k]).value, SectionPath(items[k].menuSection.value), Leaf(items[k]))
  {
    assert items[..k + 1][..k] == items[..k];
  }

  /** Once an item throws, the whole build has thrown. */
  lemma {:induction false} BuildStaysThrown(items: seq<GameMenuItem>, n: nat)
    requires n <= |items| && Build(items[..n]) == Thrown
    ensures Build(items) == Thrown
    decreases |items| - n
  {
    if n < |items| {
      assert items[..n + 1][..n] == items[..n];
      BuildStaysThrown(items, n + 1);
    } else {
      assert items[..n] == items;
    }
  }

  /** The getter's plugin lookup: the first loaded plugin whose identifier
      equals the getter's, ignoring case. */
  function FindById(plugins: seq<Plugin>, pluginId: string): (r: Option<Plugin>)
    ensures r.Some? <==> exists i :: 0 <= i < |plugins| && EqualsIgnoreCase(plugins[i].id, pluginId)
    ensures r.Some? ==> EqualsIgnoreCase(r.value.id, pluginId)
  {
    var r := FindPlugin(plugins, (p: Plugin) => EqualsIgnoreCase(p.id, pluginId));
    assert r.Some? <== exists i :: 0 <= i < |plugins| && EqualsIgnoreCase(plugins[i].id, pluginId) by {
      if exists i :: 0 <= i < |plugins| && EqualsIgnoreCase(plugins[i].id, pluginId) {
        var i :| 0 <= i < |plugins| && EqualsIgnoreCase(plugins[i].id, pluginId);
        assert ((p: Plugin) => EqualsIgnoreCase(p.id, pluginId))(plugins[i]);
      }
    }
    r
  }

  /** A menu getter (`EMLGameMenuItems` and its three siblings): nothing
      unless the view is open with a game selected and the plugin with the
      getter's identifier is loaded; nothing when building throws; otherwise
      the settings item, a separator when anything was built, and the built
      menu. `created` is what `CreateGameMenuItems` gives for that plugin. */
  function GameMenuItems(isOpen: bool, hasSelection: bool, pluginId: string, plugins: seq<Plugin>,
                         created: Result<seq<MenuEntry>>): (r: Option<seq<MenuEntry>>)
    ensures r.Some? <==> isOpen && hasSelection && created.Ok?
                         && exists i :: 0 <= i < |plugins| && EqualsIgnoreCase(plugins[i].id, pluginId)
    ensures r.Some? ==> |r.value| >= 1 && r.value[0] == Settings(pluginId)
    ensures r.Some? ==> (|r.value| == 1 || r.value[1] == Separator)
  {
    if !(isOpen && hasSelection) then None
    else
      match FindById(plugins, pluginId)
      case None => None
      case Some(_) =>
        match created
        case Thrown => None
        case Ok(items) => Some([Settings(pluginId)] + (if |items| > 0 then [Separator] else []) + items)
  }

  /** The getter's list is the built menu behind its header: the separator
      is there exactly when the built menu is not empty. */
  lemma GameMenuItemsMeaning(pluginId: string, plugins: seq<Plugin>, built: seq<MenuEntry>)
    requires exists i :: 0 <= i < |plugins| && EqualsIgnoreCase(plugins[i].id, pluginId)
    ensures var r := GameMenuItems(true, true, pluginId, plugins, Ok(built));
            && r.Some?
            && (built == [] ==> r.value == [Settings(pluginId)])
            && (built != [] ==> r.value == [Settings(pluginId), Separator] + built)
  {
  }
}
