/** The right-hand panel: shows the items of the active database, builds each database's
    grid on first use, keeps it in a per-name cache, and filters the shown grid by name and
    by type. Scene-tree calls (adding and removing the grid, freeing it) are not modelled:
    the grid on screen is the cached grid of the active database. */
module Selection {
  import opened Text
  import opened Optional
  import opened Resources
  import opened ItemButtons
  import opened Scanner

  datatype Database = Database(name: string, path: string)

  /** A built grid: its tiles in the order the scan added them. */
  type Grid = seq<DatabaseItemButton>

  /** The panel's abstract state: the grid cache and the active database (None for `(null, null)`). */
  datatype State = State(cache: map<string, Grid>, current: Option<Database>)

  /** The active database, when there is one, has a cached grid: the one on screen. */
  predicate Coherent(s: State)
  {
    s.current.Some? ==> s.current.value.name in s.cache
  }

  /** The search-box test for one tile: an empty filter lets everything through, and the
      two filters must both let the tile through. */
  predicate Matches(name: string, typeName: string, nameFilter: string, typeFilter: string)
  {
    && (nameFilter == "" || ContainsIgnoreCase(name, nameFilter))
    && (typeFilter == "" || ContainsIgnoreCase(typeName, typeFilter))
  }

  /** The empty-filter test is only a shortcut: an empty query is contained in every string. */
  lemma MatchesIsTwoContainments(name: string, typeName: string, nameFilter: string, typeFilter: string)
    ensures Matches(name, typeName, nameFilter, typeFilter) <==>
      ContainsIgnoreCase(name, nameFilter) && ContainsIgnoreCase(typeName, typeFilter)
  {
    EmptyQueryAlwaysContained(name);
    EmptyQueryAlwaysContained(typeName);
  }

  /** With both filters empty every tile is shown. */
  lemma EmptyFiltersShowAll(name: string, typeName: string)
    ensures Matches(name, typeName, "", "")
  {
  }

  /** A tile whose name lacks the name query (ignoring case) is hidden whatever the type filter. */
  lemma NameMismatchHides(name: string, typeName: string, nameFilter: string, typeFilter: string)
    requires !ContainsIgnoreCase(name, nameFilter)
    ensures !Matches(name, typeName, nameFilter, typeFilter)
  {
    EmptyQueryAlwaysContained(name);
  }

  /** `Unload(name)`: evict the cached grid of `name` and forget the active database if it is `name`. */
  function Unloaded(s: State, name: string): (r: State)
    ensures name !in r.cache
    ensures forall k :: k != name ==> (k in r.cache <==> k in s.cache)
    ensures forall k :: k in r.cache ==> r.cache[k] == s.cache[k]
    ensures r.current.None? <==> (s.current.None? || s.current.value.name == name)
    ensures r.current.Some? ==> r.current == s.current
    ensures Coherent(s) ==> Coherent(r)
  {
    State(s.cache - {name}, if s.current.Some? && s.current.value.name == name then None else s.current)
  }

  /** `Load(name, path)` where `built` is the grid a scan of `path` would produce: on a cache
      hit the cached grid is shown and `built` is not used; on a miss `built` is cached. */
  function Loaded(s: State, name: string, path: string, built: Grid): (r: State)
    ensures r.current == Some(Database(name, path))
    ensures Coherent(r)
    ensures name in s.cache ==> r.cache == s.cache
    ensures name !in s.cache ==> r.cache[name] == built
    ensures forall k :: k != name ==> (k in r.cache <==> k in s.cache)
    ensures forall k :: k in s.cache ==> k in r.cache && r.cache[k] == s.cache[k]
  {
    State(if name in s.cache then s.cache else s.cache[name := built], Some(Database(name, path)))
  }

  /** A second Unload of the same name changes nothing. */
  lemma UnloadIdempotent(s: State, name: string)
    ensures Unloaded(Unloaded(s, name), name) == Unloaded(s, name)
  {
  }

  /** Selecting a visited database again serves its cached grid, whatever path is given and
      whatever a new scan would have produced. */
  lemma LoadHitIgnoresScan(s: State, name: string, path: string, path': string, built: Grid, built': Grid)
    requires name in s.cache
    ensures Loaded(s, name, path, built).cache == Loaded(s, name, path', built').cache == s.cache
  {
  }

  /** Loading twice in a row scans at most once: the second load is a cache hit. */
  lemma LoadTwiceScansOnce(s: State, name: string, path: string, built: Grid, built': Grid)
    ensures Loaded(Loaded(s, name, path, built), name, path, built') == Loaded(s, name, path, built)
  {
  }

  /** Unload followed by Load always uses the new scan, never the evicted grid, and leaves the
      other databases' grids as they were: this is Reload, and also deleting a database and
      adding one with the same name again. */
  lemma UnloadThenLoadRescans(s: State, name: string, path: string, built: Grid)
    ensures Loaded(Unloaded(s, name), name, path, built).cache == s.cache[name := built]
    ensures Loaded(Unloaded(s, name), name, path, built).current == Some(Database(name, path))
  {
    var r := Loaded(Unloaded(s, name), name, path, built);
    assert r.cache.Keys == s.cache[name := built].Keys;
  }

  /** A tile as BuildItem leaves it for `src`: ready, visible, unpressed, and showing it. */
  ghost predicate TileBuilt(tile: DatabaseItemButton, src: Source)
    reads tile, src.res
  {
    tile.Shows(src.res, src.fileName) && tile.isReady && tile.visible && !tile.pressed
  }

  /** The tiles of `grid`, in order, show the loaded resources `srcs`. */
  ghost predicate Built(grid: Grid, srcs: seq<Source>)
    reads grid, set k | 0 <= k < |srcs| :: srcs[k].res
  {
    |grid| == |srcs| && forall k :: 0 <= k < |grid| ==> TileBuilt(grid[k], srcs[k])
  }

  class SelectionPanel {
    var cache: map<string, Grid>
    var current: Option<Database>
    var nameFilter: string
    var typeFilter: string
    /** The texts of the two search boxes; setting them from code does not raise TextChanged. */
    var nameSearchText: string
    var typeSearchText: string

    function Abstract(): State
      reads this
    {
      State(cache, current)
    }

    predicate Valid()
      reads this
    {
      Coherent(Abstract())
    }

    /** The grid on screen, if `_selectionGrid` is a live instance: that is the case exactly
        when a database is active, since its grid is freed when its name is unloaded. */
    function CurrentGrid(): Grid
      reads this
    {
      if current.Some? && current.value.name in cache then cache[current.value.name] else []
    }

    ghost function CurrentTiles(): set<DatabaseItemButton>
      reads this
    {
      set b | b in CurrentGrid()
    }

    constructor ()
      ensures Valid()
      ensures cache == map[] && current == None
      ensures nameFilter == "" && typeFilter == "" && nameSearchText == "" && typeSearchText == ""
    {
      cache, current := map[], None;
      nameFilter, typeFilter, nameSearchText, typeSearchText := "", "", "", "";
    }

    method OnNameSearchEdit(text: string)
      requires Valid()
      modifies this, CurrentTiles()
      ensures Valid() && Abstract() == old(Abstract())
      ensures nameFilter == text && nameSearchText == text && typeFilter == old(typeFilter)
      ensures typeSearchText == old(typeSearchText)
      ensures FilterApplied(old(CurrentGrid()))
      ensures forall b :: b in old(CurrentTiles()) ==>
        && b.name == old(b.name) && b.typeName == old(b.typeName) && b.resource == old(b.resource)
        && b.fileName == old(b.fileName) && b.pressed == old(b.pressed) && b.isReady == old(b.isReady)
        && b.nameLabel == old(b.nameLabel) && b.typeLabel == old(b.typeLabel)
    {
      nameFilter := text;
      nameSearchText := text;
      ApplySearchFilter();
    }

    method OnTypeSearchEdit(text: string)
      requires Valid()
      modifies this, CurrentTiles()
      ensures Valid() && Abstract() == old(Abstract())
      ensures typeFilter == text && typeSearchText == text && nameFilter == old(nameFilter)
      ensures nameSearchText == old(nameSearchText)
      ensures FilterApplied(old(CurrentGrid()))
      ensures forall b :: b in old(CurrentTiles()) ==>
        && b.name == old(b.name) && b.typeName == old(b.typeName) && b.resource == old(b.resource)
        && b.fileName == old(b.fileName) && b.pressed == old(b.pressed) && b.isReady == old(b.isReady)
        && b.nameLabel == old(b.nameLabel) && b.typeLabel == old(b.typeLabel)
    {
      typeFilter := text;
      typeSearchText := text;
      ApplySearchFilter();
    }

    /** Every tile of `grid` is visible exactly when it matches the current filters. */
    ghost predicate FilterApplied(grid: Grid)
      reads this, grid
    {
      forall k :: 0 <= k < |grid| ==> grid[k].visible == Matches(grid[k].name, grid[k].typeName, nameFilter, typeFilter)
    }

    /** Sets each shown tile's visibility from the filters; with no grid on screen it does
        nothing. Only visibility changes: the cache, the order of tiles and their contents stay. */
    method ApplySearchFilter()
      modifies CurrentTiles()
      ensures FilterApplied(CurrentGrid())
      ensures forall b :: b in CurrentTiles() ==>
        && b.name == old(b.name) && b.typeName == old(b.typeName) && b.resource == old(b.resource)
        && b.fileName == old(b.fileName) && b.pressed == old(b.pressed) && b.isReady == old(b.isReady)
        && b.nameLabel == old(b.nameLabel) && b.typeLabel == old(b.typeLabel)
    {
      if current.None? || current.value.name !in cache {
        return;
      }
      var grid := cache[current.value.name];
      for i := 0 to |grid|
        invariant forall k :: 0 <= k < i ==> grid[k].visible == Matches(grid[k].name, grid[k].typeName, nameFilter, typeFilter)
        invariant forall b :: b in grid ==>
          && b.name == old(b.name) && b.typeName == old(b.typeName) && b.resource == old(b.resource)
          && b.fileName == old(b.fileName) && b.pressed == old(b.pressed) && b.isReady == old(b.isReady)
          && b.nameLabel == old(b.nameLabel) && b.typeLabel == old(b.typeLabel)
      {
        var tile := grid[i];
        tile.visible := Matches(tile.name, tile.typeName, nameFilter, typeFilter);
      }
    }

    /** Shows the grid of `name`: the cached one on a hit (the path is not looked at), else a
        new grid from a scan of `path`, which is then cached under `name`. Either way `name`
        and `path` become the active database. The filters are not re-applied: a new grid
        shows all its tiles. */
    method Load(name: string, path: string, fs: FileSystem, loader: Loader)
      requires Valid()
      modifies this
      ensures Valid() && name in cache
      ensures Abstract() == Loaded(old(Abstract()), name, path, cache[name])
      ensures name !in old(cache) ==> Built(cache[name], Resolve(Scan(fs, path), loader))
      ensures name !in old(cache) ==> forall b :: b in cache[name] ==> fresh(b)
      ensures nameFilter == old(nameFilter) && typeFilter == old(typeFilter)
      ensures nameSearchText == old(nameSearchText) && typeSearchText == old(typeSearchText)
    {
      if name !in cache {
        var grid: Grid := [];
        if path in fs {
          grid := UpdateGridItems(path, fs[path], loader);
        } else {
          // The directory does not exist: the new grid stays empty.
        }
        cache := cache[name := grid];
      }
      current := Some(Database(name, path));
    }

    /** Forgets `name`: its grid leaves the cache, and the active database is cleared if it is `name`. */
    method Unload(name: string)
      requires Valid()
      modifies this
      ensures Valid()
      ensures Abstract() == Unloaded(old(Abstract()), name)
      ensures nameFilter == old(nameFilter) && typeFilter == old(typeFilter)
      ensures nameSearchText == old(nameSearchText) && typeSearchText == old(typeSearchText)
    {
      if current.Some? && current.value.name == name {
        current := None;
      }
      cache := cache - {name};
    }

    /** The reload button: with no active database nothing happens; otherwise the active
        database is unloaded and loaded again, which rescans it, and both search boxes are
        emptied. Emptying a box from code does not run its handler, so the filter strings stay. */
    method OnReloadPressed(fs: FileSystem, loader: Loader)
      requires Valid()
      modifies this
      ensures Valid()
      ensures old(current).None? ==> unchanged(this)
      ensures old(current).Some? ==>
        var db := old(current).value;
        && db.name in cache
        && Abstract() == Loaded(Unloaded(old(Abstract()), db.name), db.name, db.path, cache[db.name])
        && Built(cache[db.name], Resolve(Scan(fs, db.path), loader))
        && (forall b :: b in cache[db.name] ==> fresh(b))
        && nameSearchText == "" && typeSearchText == ""
      ensures nameFilter == old(nameFilter) && typeFilter == old(typeFilter)
    {
      if current.None? {
        return;
      }
      var db := current.value;
      Unload(db.name);
      Load(db.name, db.path, fs, loader);
      nameSearchText := "";
      typeSearchText := "";
    }

    /** The recursive walk of `UpdateGridItems`, returning the tiles it adds to the new grid:
        one per file named "*.tres" or "*.res" that loads, in listing order. `node` is what
        `path` leads to. */
    method UpdateGridItems(path: string, node: Node, loader: Loader) returns (items: Grid)
      ensures Built(items, Resolve(Walk(path, node), loader))
      ensures forall b :: b in items ==> fresh(b)
      decreases node, 1
    {
      items := [];
      if !node.Dir? {
        return; // the directory does not exist
      }
      if !node.readable {
        return; // the directory cannot be opened
      }
      ghost var total := Resolve(WalkEntries(path, node, 0), loader);
      ghost var done: seq<Source> := [];
      var i := 0;
      // The listing ends where GetNext() returns "".
      while i < |node.entries| && node.entries[i].name != ""
        invariant 0 <= i <= |node.entries|
        invariant total == done + Resolve(WalkEntries(path, node, i), loader)
        invariant Built(items, done)
        invariant forall b :: b in items ==> fresh(b)
      {
        ghost var found := Resolve(EntryCandidates(path, node.entries[i]), loader);
        ghost var rest := Resolve(WalkEntries(path, node, i + 1), loader);
        ResolveWalkStep(path, node, i, loader);
        ConcatAssoc(done, found, rest);
        items := AppendEntry(items, done, path, node.entries[i], loader);
        done := done + found;
        i := i + 1;
      }
      assert WalkEntries(path, node, i) == [];
      assert done + [] == done;
    }

    /** Appends the tiles of one listing entry to those built so far. */
    method AppendEntry(items: Grid, ghost done: seq<Source>, path: string, entry: Node, loader: Loader)
      returns (items': Grid)
      requires Built(items, done)
      ensures Built(items', done + Resolve(EntryCandidates(path, entry), loader))
      ensures forall b :: b in items' ==> b in items || fresh(b)
      decreases entry, 3
    {
      var added := UpdateEntry(path, entry, loader);
      BuiltAppend(items, done, added, Resolve(EntryCandidates(path, entry), loader));
      items' := items + added;
    }

    /** One pass of the listing loop: skip "." and "..", descend into a directory, and try
        to load a file whose name has a resource suffix. */
    method UpdateEntry(path: string, entry: Node, loader: Loader) returns (added: Grid)
      ensures Built(added, Resolve(EntryCandidates(path, entry), loader))
      ensures forall b :: b in added ==> fresh(b)
      decreases entry, 2
    {
      var full := path + "/" + entry.name;
      added := [];
      if IsNavigational(entry.name) {
        // "." and ".." are skipped
      } else if entry.Dir? {
        added := UpdateGridItems(full, entry, loader);
      } else if IsResourceFile(entry.name) {
        var res: Resource? := if full in loader then loader[full] else null;
        added := BuildItem(res, entry.name);
      }
    }

    /** One tile for a loaded resource, none for a file that loads to null. The tile enters the
        grid (and so runs `_Ready`) before `Set` is called. */
    method BuildItem(res: Resource?, fileName: string) returns (added: Grid)
      ensures res == null ==> added == []
      ensures res != null ==> Built(added, [Source(res, fileName)])
      ensures forall b :: b in added ==> fresh(b)
    {
      if res == null {
        return [];
      }
      var button := new DatabaseItemButton();
      button.Ready();
      button.Set(res, fileName);
      added := [button];
    }
  }

  lemma ConcatAssoc<T>(a: seq<T>, b: seq<T>, c: seq<T>)
    ensures a + (b + c) == (a + b) + c
  {
  }

  lemma BuiltAppend(a: Grid, s: seq<Source>, b: Grid, t: seq<Source>)
    requires Built(a, s) && Built(b, t)
    ensures Built(a + b, s + t)
  {
    assert forall k :: 0 <= k < |b| ==> (a + b)[|a| + k] == b[k] && (s + t)[|s| + k] == t[k];
  }
}
