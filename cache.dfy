/** The availability cache of the open-folder commands: `CheckSaveFileViewPlugin`
    and `GetCachedMenuItems`. Results are cached per game and path type,
    menu items per game, both for 500 ms; a set of pending keys keeps a
    second check of the same key from starting while one runs. Clock
    readings are parameters; the companion plugin's answer, its data file
    and the machine are inputs. */
module AvailabilityCache {

  import opened Wrappers
  import opened Playnite
  import opened SaveFileView
  import opened Resolver

  /** 500 ms in `DateTime` ticks of 100 ns. */
  const CacheTimeout: int := 5_000_000

  /** The result cache is swept once it holds more entries than this. */
  const ResultSweepThreshold: int := 20

  /** The menu item cache is swept once it holds more entries than this. */
  const MenuSweepThreshold: int := 10

  type ResultCache = map<string, (bool, int)>
  type MenuCache = map<string, (Option<seq<GameMenuItem>>, int)>

  /** What the companion plugin's `GetGameMenuItems` does when asked: it
      answers with a list (possibly null), or it throws. */
  datatype MenuFetch = Answered(items: Option<seq<GameMenuItem>>) | Failed

  /** The three pieces of static state. */
  datatype CacheState = CacheState(results: ResultCache, menuItems: MenuCache, pending: set<string>)

  /** A check's new state and its answer. */
  datatype Outcome = Outcome(state: CacheState, result: bool)

  /** An entry stamped at `stamp` is still valid at `now`. */
  predicate Fresh(stamp: int, now: int)
  {
    now - stamp < CacheTimeout
  }

  /** The keys whose entries have expired at `now`. */
  function ExpiredKeys<V>(m: map<string, (V, int)>, now: int): (r: set<string>)
    ensures forall k :: k in r <==> k in m && !Fresh(m[k].1, now)
  {
    set k | k in m && !Fresh(m[k].1, now)
  }

  /** The cache after the sweep. */
  function Sweep<V>(m: map<string, (V, int)>, now: int): (r: map<string, (V, int)>)
    ensures forall k :: k in r <==> k in m && Fresh(m[k].1, now)
    ensures forall k :: k in r ==> r[k] == m[k]
  {
    m - ExpiredKeys(m, now)
  }

  /** The sweep's removal loop. */
  method RemoveKeys<V>(m: map<string, V>, keys: set<string>) returns (r: map<string, V>)
    ensures r == m - keys
  {
    r := m;
    var rest := keys;
    while rest != {}
      invariant rest <= keys
      invariant r == m - (keys - rest)
      decreases |rest|
    {
      var key :| key in rest;
      r := r - {key};
      rest := rest - {key};
    }
  }

  /** The key of a check: the game's identifier and the path type. */
  function CheckKey(gameId: string, pathType: string): string
  {
    gameId + ":" + pathType
  }

  /** The key of a game's menu items. */
  function MenuKey(gameId: string): string
  {
    "menuItems:" + gameId
  }

  /** `GetCachedMenuItems`: a fresh cached list is returned as it is;
      otherwise the stale entry is dropped, the cache swept when it is over
      its threshold, and the plugin asked; its answer is cached at `now`. */
  function MenuLookup(menu: MenuCache, gameId: string, now: int, fetch: MenuFetch)
    : (r: (MenuCache, Result<Option<seq<GameMenuItem>>>))
    ensures var key := MenuKey(gameId);
            key in menu && Fresh(menu[key].1, now) ==> r == (menu, Ok(menu[key].0))
    ensures var key := MenuKey(gameId);
            !(key in menu && Fresh(menu[key].1, now)) ==>
              && (fetch.Answered? ==> r.1 == Ok(fetch.items) && key in r.0 && r.0[key] == (fetch.items, now))
              && (fetch.Failed? ==> r.1 == Thrown && key !in r.0)
    ensures forall k :: k != MenuKey(gameId) && k in r.0 ==> k in menu && r.0[k] == menu[k]
    ensures forall k :: k != MenuKey(gameId) && k in menu && Fresh(menu[k].1, now) ==> k in r.0
  {
    var key := MenuKey(gameId);
    if key in menu && Fresh(menu[key].1, now) then (menu, Ok(menu[key].0))
    else
      var removed := menu - {key};
      var swept := if |removed| > MenuSweepThreshold then Sweep(removed, now) else removed;
      match fetch
      case Failed => (swept, Thrown)
      case Answered(items) => (swept[key := (items, now)], Ok(items))
  }

  /** The body of the `try` block of `CheckSaveFileViewPlugin`, with an
      exception turned into `false`; `now` and `menuNow` are the clock as
      the check and the menu lookup read it. */
  function Attempt(s: CacheState, game: Game, pathType: string, now: int, menuNow: int,
                   plugins: seq<Plugin>, fetch: MenuFetch, data: PluginData, m: Machine): Outcome
  {
    var key := CheckKey(game.id, pathType);
    if key in s.pending then Outcome(s, false)
    else if key in s.results && Fresh(s.results[key].1, now) then Outcome(s, s.results[key].0)
    else
      Resolve(Admit(s, key, now), game, pathType, now, menuNow, plugins, fetch, data, m)
  }

  /** A miss drops the key's stale answer, sweeps the answers when they are
      over their threshold and marks the key pending. */
  function Admit(s: CacheState, key: string, now: int): CacheState
  {
    var removed := s.results - {key};
    var swept := if |removed| > ResultSweepThreshold then Sweep(removed, now) else removed;
    CacheState(swept, s.menuItems, s.pending + {key})
  }

  /** The part of the attempt after a miss: find the plugin, read its menu
      items, select one, look at the folders, and store the answer. */
  function Resolve(s: CacheState, game: Game, pathType: string, now: int, menuNow: int,
                   plugins: seq<Plugin>, fetch: MenuFetch, data: PluginData, m: Machine): Outcome
  {
    var key := CheckKey(game.id, pathType);
    match FindPlugin(plugins, IsCompanion)
    case None => Outcome(s.(results := s.results[key := (false, now)]), false)
    case Some(_) =>
      var (menu, fetched) := MenuLookup(s.menuItems, game.id, menuNow, fetch);
      match fetched
      case Thrown => Outcome(s.(menuItems := menu), false)
      case Ok(items) =>
        var result := SelectRelevantItem(items, pathType).Some? && FoldersExist(game, pathType, data, m);
        Outcome(CacheState(s.results[key := (result, now)], menu, s.pending), result)
  }

  /** `CheckSaveFileViewPlugin`: the attempt, then the `finally` block that
      removes the key from the pending set. */
  function Check(s: CacheState, game: Game, pathType: string, now: int, menuNow: int,
                 plugins: seq<Plugin>, fetch: MenuFetch, data: PluginData, m: Machine): Outcome
  {
    var o := Attempt(s, game, pathType, now, menuNow, plugins, fetch, data, m);
    Outcome(o.state.(pending := o.state.pending - {CheckKey(game.id, pathType)}), o.result)
  }

  /** The key is a cache hit: not pending, present and fresh. */
  predicate IsHit(s: CacheState, key: string, now: int)
  {
    key !in s.pending && key in s.results && Fresh(s.results[key].1, now)
  }

  /** The plugin was found and asking it for menu items threw. */
  predicate MenuLookupThrows(s: CacheState, game: Game, menuNow: int, plugins: seq<Plugin>, fetch: MenuFetch)
  {
    FindPlugin(plugins, IsCompanion).Some? && MenuLookup(s.menuItems, game.id, menuNow, fetch).1.Thrown?
  }

  /** A key already pending answers `false` and changes nothing but the
      pending set, from which the key is removed. */
  lemma PendingKeyAnswersFalse(s: CacheState, game: Game, pathType: string, now: int, menuNow: int,
                               plugins: seq<Plugin>, fetch: MenuFetch, data: PluginData, m: Machine)
    requires CheckKey(game.id, pathType) in s.pending
    ensures var o := Check(s, game, pathType, now, menuNow, plugins, fetch, data, m);
            && !o.result && o.state.results == s.results && o.state.menuItems == s.menuItems
            && o.state.pending == s.pending - {CheckKey(game.id, pathType)}
  {
  }

  /** Every exit removes the key from the pending set and touches no other
      pending key; between sequential calls the set therefore stays empty. */
  lemma PendingAlwaysCleared(s: CacheState, game: Game, pathType: string, now: int, menuNow: int,
                             plugins: seq<Plugin>, fetch: MenuFetch, data: PluginData, m: Machine)
    ensures var o := Check(s, game, pathType, now, menuNow, plugins, fetch, data, m);
            o.state.pending == s.pending - {CheckKey(game.id, pathType)}
    ensures s.pending == {} ==> Check(s, game, pathType, now, menuNow, plugins, fetch, data, m).state.pending == {}
  {
    AttemptPending(s, game, pathType, now, menuNow, plugins, fetch, data, m);
  }

  /** The attempt adds at most the key to the pending set. */
  lemma AttemptPending(s: CacheState, game: Game, pathType: string, now: int, menuNow: int,
                       plugins: seq<Plugin>, fetch: MenuFetch, data: PluginData, m: Machine)
    ensures var p := Attempt(s, game, pathType, now, menuNow, plugins, fetch, data, m).state.pending;
            p - {CheckKey(game.id, pathType)} == s.pending - {CheckKey(game.id, pathType)}
  {
    var key := CheckKey(game.id, pathType);
    if key !in s.pending && !(key in s.results && Fresh(s.results[key].1, now)) {
      ResolveKeepsPending(Admit(s, key, now), game, pathType, now, menuNow, plugins, fetch, data, m);
    }
  }

  /** Resolving a miss leaves the pending set as the admission made it. */
  lemma ResolveKeepsPending(s: CacheState, game: Game, pathType: string, now: int, menuNow: int,
                            plugins: seq<Plugin>, fetch: MenuFetch, data: PluginData, m: Machine)
    ensures Resolve(s, game, pathType, now, menuNow, plugins, fetch, data, m).state.pending == s.pending
  {
  }

  /** A hit answers the cached value and leaves every cache as it was. */
  lemma HitAnswersCached(s: CacheState, game: Game, pathType: string, now: int, menuNow: int,
                         plugins: seq<Plugin>, fetch: MenuFetch, data: PluginData, m: Machine)
    requires IsHit(s, CheckKey(game.id, pathType), now)
    ensures Check(s, game, pathType, now, menuNow, plugins, fetch, data, m)
         == Outcome(s, s.results[CheckKey(game.id, pathType)].0)
  {
    var key := CheckKey(game.id, pathType);
    assert s.pending - {key} == s.pending;
  }

  /** On a miss that does not throw, the answer is stored under the key,
      stamped `now`. */
  lemma MissStoresAnswer(s: CacheState, game: Game, pathType: string, now: int, menuNow: int,
                         plugins: seq<Plugin>, fetch: MenuFetch, data: PluginData, m: Machine)
    requires var key := CheckKey(game.id, pathType);
             key !in s.pending && !IsHit(s, key, now)
    requires !MenuLookupThrows(s, game, menuNow, plugins, fetch)
    ensures var o := Check(s, game, pathType, now, menuNow, plugins, fetch, data, m);
            var key := CheckKey(game.id, pathType);
            key in o.state.results && o.state.results[key] == (o.result, now)
  {
  }

  /** When asking for menu items throws, the answer is `false` and nothing
      is stored under the key. */
  lemma ThrowStoresNothing(s: CacheState, game: Game, pathType: string, now: int, menuNow: int,
                           plugins: seq<Plugin>, fetch: MenuFetch, data: PluginData, m: Machine)
    requires var key := CheckKey(game.id, pathType);
             key !in s.pending && !IsHit(s, key, now)
    requires MenuLookupThrows(s, game, menuNow, plugins, fetch)
    ensures var o := Check(s, game, pathType, now, menuNow, plugins, fetch, data, m);
            !o.result && CheckKey(game.id, pathType) !in o.state.results
  {
  }

  /** Outside a hit, the answer is `true` exactly when the plugin is found,
      its menu items are read, one of them passes the keyword predicate and
      the data file's entries resolve to a directory. */
  lemma MissAnswerMeaning(s: CacheState, game: Game, pathType: string, now: int, menuNow: int,
                          plugins: seq<Plugin>, fetch: MenuFetch, data: PluginData, m: Machine)
    requires !IsHit(s, CheckKey(game.id, pathType), now)
    ensures Check(s, game, pathType, now, menuNow, plugins, fetch, data, m).result <==>
              && CheckKey(game.id, pathType) !in s.pending
              && FindPlugin(plugins, IsCompanion).Some?
              && MenuLookup(s.menuItems, game.id, menuNow, fetch).1.Ok?
              && SelectRelevantItem(MenuLookup(s.menuItems, game.id, menuNow, fetch).1.value, pathType).Some?
              && FoldersExist(game, pathType, data, m)
  {
  }

  /** A `true` answer is a cached `true` or comes with a plugin, a matching
      menu item and an existing folder; a missing data file gives `false`
      unless a cached answer is reused. */
  lemma TrueNeedsEvidence(s: CacheState, game: Game, pathType: string, now: int, menuNow: int,
                          plugins: seq<Plugin>, fetch: MenuFetch, data: PluginData, m: Machine)
    ensures var o := Check(s, game, pathType, now, menuNow, plugins, fetch, data, m);
            var key := CheckKey(game.id, pathType);
            o.result ==> (IsHit(s, key, now) && s.results[key].0)
                         || (FindPlugin(plugins, IsCompanion).Some? && data.Loaded? && FoldersExist(game, pathType, data, m))
  {
    if !IsHit(s, CheckKey(game.id, pathType), now) {
      MissAnswerMeaning(s, game, pathType, now, menuNow, plugins, fetch, data, m);
    }
  }

  /** Other keys of the result cache: nothing is added or changed, and only
      entries that have expired at `now` may be dropped. */
  lemma OtherResultsKept(s: CacheState, game: Game, pathType: string, now: int, menuNow: int,
                         plugins: seq<Plugin>, fetch: MenuFetch, data: PluginData, m: Machine, k: string)
    requires k != CheckKey(game.id, pathType)
    ensures var o := Check(s, game, pathType, now, menuNow, plugins, fetch, data, m);
            && (k in o.state.results ==> k in s.results && o.state.results[k] == s.results[k])
            && (k in s.results && Fresh(s.results[k].1, now) ==> k in o.state.results)
  {
    var key := CheckKey(game.id, pathType);
    if key !in s.pending && !(key in s.results && Fresh(s.results[key].1, now)) {
      var a := Admit(s, key, now);
      AdmitKeepsOthers(s, key, now, k);
      ResolveKeepsOthers(a, game, pathType, now, menuNow, plugins, fetch, data, m, k);
    }
  }

  /** Admitting a key drops, of the other keys, only expired entries. */
  lemma AdmitKeepsOthers(s: CacheState, key: string, now: int, k: string)
    requires k != key
    ensures var r := Admit(s, key, now).results;
            && (k in r ==> k in s.results && r[k] == s.results[k])
            && (k in s.results && Fresh(s.results[k].1, now) ==> k in r)
  {
  }

  /** The answers are swept exactly when, without the key's own entry, more
      than `ResultSweepThreshold` remain: then every entry left is fresh;
      otherwise every other answer stays, expired or not. */
  lemma AdmitSweepsWhenFull(s: CacheState, key: string, now: int)
    ensures var r := Admit(s, key, now).results;
            && (|s.results - {key}| > ResultSweepThreshold ==> forall k :: k in r ==> Fresh(r[k].1, now))
            && (|s.results - {key}| <= ResultSweepThreshold ==>
                  forall k :: k != key && k in s.results ==> k in r && r[k] == s.results[k])
  {
  }

  /** On a miss the menu cache is swept exactly when, without the game's own
      entry, more than `MenuSweepThreshold` remain: then every entry left,
      the new one included, is fresh; otherwise every other entry stays. */
  lemma MenuLookupSweepsWhenFull(menu: MenuCache, gameId: string, now: int, fetch: MenuFetch)
    requires !(MenuKey(gameId) in menu && Fresh(menu[MenuKey(gameId)].1, now))
    ensures var r := MenuLookup(menu, gameId, now, fetch).0;
            && (|menu - {MenuKey(gameId)}| > MenuSweepThreshold ==> forall k :: k in r ==> Fresh(r[k].1, now))
            && (|menu - {MenuKey(gameId)}| <= MenuSweepThreshold ==>
                  forall k :: k != MenuKey(gameId) && k in menu ==> k in r && r[k] == menu[k])
  {
  }

  /** Resolving a miss writes the key's entry and no other. */
  lemma ResolveKeepsOthers(s: CacheState, game: Game, pathType: string, now: int, menuNow: int,
                           plugins: seq<Plugin>, fetch: MenuFetch, data: PluginData, m: Machine, k: string)
    requires k != CheckKey(game.id, pathType)
    ensures var r := Resolve(s, game, pathType, now, menuNow, plugins, fetch, data, m).state.results;
            (k in r <==> k in s.results) && (k in r ==> r[k] == s.results[k])
  {
  }

  /** The sweep leaves no expired entry and keeps every fresh one. */
  lemma SweepKeepsExactlyFresh<V>(m: map<string, (V, int)>, now: int)
    ensures var r := Sweep(m, now);
            && r.Keys <= m.Keys
            && (forall k :: k in r ==> Fresh(r[k].1, now))
            && |r| + |ExpiredKeys(m, now)| == |m|
  {
    var r := Sweep(m, now);
    var e := ExpiredKeys(m, now);
    assert m.Keys == r.Keys + e;
    assert r.Keys * e == {};
  }

  /** `TryOpenWithSaveFileViewPlugin` up to the invocation of the selected
      item's action: the plugin is looked up by identifier only, its menu
      items read through the cache, and the first item passing the keyword
      predicate is the one opened. */
  function TryOpen(menu: MenuCache, game: Game, pathType: string, now: int, plugins: seq<Plugin>, fetch: MenuFetch)
    : (r: (MenuCache, Option<GameMenuItem>))
    ensures r.1.Some? <==> && FindPlugin(plugins, HasCompanionId).Some?
                           && MenuLookup(menu, game.id, now, fetch).1.Ok?
                           && SelectRelevantItem(MenuLookup(menu, game.id, now, fetch).1.value, pathType).Some?
    ensures FindPlugin(plugins, HasCompanionId).None? ==> r.0 == menu
    ensures FindPlugin(plugins, HasCompanionId).Some? ==> r.0 == MenuLookup(menu, game.id, now, fetch).0
    ensures r.1.Some? ==> r.1 == SelectRelevantItem(MenuLookup(menu, game.id, now, fetch).1.value, pathType)
  {
    match FindPlugin(plugins, HasCompanionId)
    case None => (menu, None)
    case Some(_) =>
      var (menu', fetched) := MenuLookup(menu, game.id, now, fetch);
      match fetched
      case Thrown => (menu', None)
      case Ok(items) => (menu', SelectRelevantItem(items, pathType))
  }

  /** The command opens an item only where the availability check, on a
      miss with the same menu cache and answer, would find the plugin and a
      matching item; the check may still disable the command when the folders
      are missing. */
  lemma OpenImpliesCheckFindsItem(s: CacheState, game: Game, pathType: string, now: int, menuNow: int,
                                  plugins: seq<Plugin>, fetch: MenuFetch)
    requires TryOpen(s.menuItems, game, pathType, menuNow, plugins, fetch).1.Some?
    ensures FindPlugin(plugins, IsCompanion).Some?
    ensures MenuLookup(s.menuItems, game.id, menuNow, fetch).1.Ok?
    ensures SelectRelevantItem(MenuLookup(s.menuItems, game.id, menuNow, fetch).1.value, pathType).Some?
  {
    CheckLookupIsWider(plugins);
  }

  /** The command layer's static caches. */
  class CommandCache {

    var results: ResultCache
    var menuItems: MenuCache
    var pending: set<string>

    constructor ()
      ensures results == map[] && menuItems == map[] && pending == {}
    {
      results := map[];
      menuItems := map[];
      pending := {};
    }

    function State(): CacheState
      reads this
    {
      CacheState(results, menuItems, pending)
    }

    /** `GetCachedMenuItems`. */
    method GetCachedMenuItems(gameId: string, now: int, fetch: MenuFetch)
      returns (r: Result<Option<seq<GameMenuItem>>>)
      modifies this`menuItems
      ensures (menuItems, r) == MenuLookup(old(menuItems), gameId, now, fetch)
    {
      var cacheKey := MenuKey(gameId);
      if cacheKey in menuItems {
        var cachedEntry := menuItems[cacheKey];
        if now - cachedEntry.1 < CacheTimeout {
          return Ok(cachedEntry.0);
        }
        menuItems := menuItems - {cacheKey};
      }
      assert menuItems == old(menuItems) - {cacheKey};
      if |menuItems| > MenuSweepThreshold {
        menuItems := RemoveKeys(menuItems, ExpiredKeys(menuItems, now));
      }
      match fetch
      case Failed =>
        r := Thrown;
      case Answered(items) =>
        menuItems := menuItems[cacheKey := (items, now)];
        r := Ok(items);
    }

    /** The `try` block of `CheckSaveFileViewPlugin`. */
    method AttemptCheck(game: Game, pathType: string, now: int, menuNow: int,
                        plugins: seq<Plugin>, fetch: MenuFetch, data: PluginData, m: Machine)
      returns (r: bool)
      modifies this
      ensures Outcome(State(), r) == Attempt(old(State()), game, pathType, now, menuNow, plugins, fetch, data, m)
    {
      var cacheKey := CheckKey(game.id, pathType);
      if cacheKey in pending {
        return false;
      }
      if cacheKey in results {
        var cachedEntry := results[cacheKey];
        if now - cachedEntry.1 < CacheTimeout {
          return cachedEntry.0;
        }
      }
      AdmitKey(cacheKey, now);
      r := ResolveMiss(game, pathType, now, menuNow, plugins, fetch, data, m);
    }

    /** The steps between a miss and the plugin lookup: the stale entry's
        removal, the pending mark and the sweep. */
    method AdmitKey(cacheKey: string, now: int)
      modifies this
      ensures State() == Admit(old(State()), cacheKey, now)
    {
      ghost var removed := results - {cacheKey};
      if cacheKey in results {
        results := results - {cacheKey};
      }
      assert results == removed;
      pending := pending + {cacheKey};
      if |results| > ResultSweepThreshold {
        results := RemoveKeys(results, ExpiredKeys(results, now));
        assert results == Sweep(removed, now);
      }
    }

    /** The attempt after a miss. */
    method ResolveMiss(game: Game, pathType: string, now: int, menuNow: int,
                       plugins: seq<Plugin>, fetch: MenuFetch, data: PluginData, m: Machine)
      returns (r: bool)
      modifies this
      ensures Outcome(State(), r) == Resolve(old(State()), game, pathType, now, menuNow, plugins, fetch, data, m)
    {
      var cacheKey := CheckKey(game.id, pathType);
      var plugin := FindPlugin(plugins, IsCompanion);
      if plugin.None? {
        results := results[cacheKey := (false, now)];
        return false;
      }
      var fetched := GetCachedMenuItems(game.id, menuNow, fetch);
      if fetched.Thrown? {
        return false;
      }
      var relevantItem := SelectRelevantItem(fetched.value, pathType);
      if relevantItem.None? {
        results := results[cacheKey := (false, now)];
        return false;
      }
      var foldersExistOnDisk := CheckActualFoldersExist(game, pathType, data, m);
      r := foldersExistOnDisk;
      results := results[cacheKey := (r, now)];
    }

    /** `CheckSaveFileViewPlugin`: the attempt, then the `finally` block. */
    method CheckSaveFileViewPlugin(game: Game, pathType: string, now: int, menuNow: int,
                                   plugins: seq<Plugin>, fetch: MenuFetch, data: PluginData, m: Machine)
      returns (r: bool)
      modifies this
      ensures Outcome(State(), r) == Check(old(State()), game, pathType, now, menuNow, plugins, fetch, data, m)
    {
      r := AttemptCheck(game, pathType, now, menuNow, plugins, fetch, data, m);
      pending := pending - {CheckKey(game.id, pathType)};
    }

    /** `TryOpenWithSaveFileViewPlugin`, answering the item whose action it
      invokes; the answer is `true` exactly when there is one. */
    method TryOpenWithSaveFileViewPlugin(game: Game, pathType: string, now: int,
                                         plugins: seq<Plugin>, fetch: MenuFetch)
      returns (invoked: Option<GameMenuItem>)
      modifies this`menuItems
      ensures (menuItems, invoked) == TryOpen(old(menuItems), game, pathType, now, plugins, fetch)
    {
      var saveFileViewPlugin := FindPlugin(plugins, HasCompanionId);
      if saveFileViewPlugin.None? {
        return None;
      }
      var fetched := GetCachedMenuItems(game.id, now, fetch);
      if fetched.Thrown? {
        return None;
      }
      invoked := SelectRelevantItem(fetched.value, pathType);
    }
  }
}
