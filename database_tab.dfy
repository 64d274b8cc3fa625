/** The database tab: the registry list on the left, the selection grid on the right.
    Pressing a database loads it into the grid; deleting one unloads it. */
module Session {
  import opened Optional
  import opened Scanner
  import opened Registry
  import opened Selection
  import opened Text

  class DatabaseTab {
    const databases: DatabasePanel
    const selection: SelectionPanel

    /** Both panels are consistent, the grid caches only registered databases, and the
        database on show is registered under the path it was loaded with. */
    ghost predicate Valid()
      reads this, databases, databases.popup, selection
    {
      && databases.Valid()
      && selection.Valid()
      && selection.cache.Keys <= databases.registry.Keys
      && (selection.current.Some? ==>
            var db := selection.current.value;
            db.name in databases.registry && databases.registry[db.name] == db.path)
    }

    /** `_Ready`: both panels are set up, and the registry comes from the configuration file. */
    constructor (cfg: ConfigFile)
      ensures Valid() && fresh(databases) && fresh(databases.popup) && fresh(selection)
      ensures selection.cache == map[] && selection.current == None
      ensures cfg.Present? && cfg.parsed.Dictionary? ==> databases.registry == cfg.parsed.entries
      ensures !(cfg.Present? && cfg.parsed.Dictionary?) ==> databases.registry == map[]
      ensures databases.log == [] && !databases.popup.visible
      ensures selection.nameFilter == "" && selection.typeFilter == ""
      ensures selection.nameSearchText == "" && selection.typeSearchText == ""
    {
      databases := new DatabasePanel(cfg);
      selection := new SelectionPanel();
    }

    /** Database entry `i` was pressed: the grid shows that database, scanned from its
        registered path unless it was already cached. */
    method OnDatabasePressed(i: nat, fs: FileSystem, loader: Loader)
      requires Valid() && i < |databases.buttons|
      modifies selection
      ensures Valid()
      ensures var name := databases.buttons[i].text;
        && selection.current == Some(Database(name, databases.registry[name]))
        && name in selection.cache
        && (name in old(selection.cache) ==> selection.cache == old(selection.cache))
        && selection.Abstract() == Loaded(old(selection.Abstract()), name, databases.registry[name], selection.cache[name])
        && (name !in old(selection.cache) ==>
              Built(selection.cache[name], Resolve(Scan(fs, databases.registry[name]), loader)))
      ensures selection.nameFilter == old(selection.nameFilter) && selection.typeFilter == old(selection.typeFilter)
      ensures selection.nameSearchText == old(selection.nameSearchText)
      ensures selection.typeSearchText == old(selection.typeSearchText)
    {
      var name, path := databases.OnButtonPressed(i);
      selection.Load(name, path, fs, loader);
    }

    /** The delete button of entry `i` was pressed: the name leaves the registry, the list
        and the grid's cache, and the grid stops showing it if it was on show. */
    method OnDeletePressed(i: nat) returns (name: string)
      requires Valid() && i < |databases.buttons|
      modifies databases, selection
      ensures Valid()
      ensures name == old(databases.buttons[i].text) && name in old(databases.registry)
      ensures databases.registry == old(databases.registry) - {name}
      ensures databases.buttons == old(databases.buttons[..i] + databases.buttons[i + 1..])
      ensures databases.log == old(databases.log) + [Saved(databases.registry), Deleted(name)]
      ensures selection.Abstract() == Unloaded(old(selection.Abstract()), name)
      ensures name !in selection.cache
      ensures forall k :: k != name ==> (k in selection.cache <==> k in old(selection.cache))
      ensures forall k :: k in selection.cache ==> selection.cache[k] == old(selection.cache[k])
      ensures selection.current.None? <==> (old(selection.current).None? || old(selection.current).value.name == name)
      ensures selection.current.Some? ==> selection.current == old(selection.current)
      ensures selection.nameFilter == old(selection.nameFilter) && selection.typeFilter == old(selection.typeFilter)
      ensures selection.nameSearchText == old(selection.nameSearchText)
      ensures selection.typeSearchText == old(selection.typeSearchText)
    {
      name := databases.OnDeletePressed(i);
      selection.Unload(name);
    }

    /** The add dialog confirmed a name and a path. A new name is registered; the grid is
        not touched either way. */
    method OnConfirmAdd() returns (name: string, path: string)
      requires Valid() && !databases.popup.confirmDisabled
      modifies databases, databases.popup
      ensures Valid()
      ensures name == old(databases.popup.nameText) && path == old(databases.popup.pathText)
      ensures |name| > 0 && |path| > 0
      ensures name in old(databases.registry) ==>
        && databases.registry == old(databases.registry)
        && databases.buttons == old(databases.buttons)
        && databases.log == old(databases.log)
      ensures name !in old(databases.registry) ==>
        && databases.registry == old(databases.registry)[name := path]
        && databases.buttons == old(databases.buttons) + [ListEntry(name, path, true)]
        && databases.log == old(databases.log) + [Saved(databases.registry)]
      ensures !databases.popup.visible && databases.popup.confirmDisabled
      ensures databases.popup.nameText == "" && databases.popup.pathText == ""
    {
      name, path := databases.ConfirmAdd();
    }

    /** Reload: the database on show, if any, is scanned again from its registered path. */
    method OnReloadPressed(fs: FileSystem, loader: Loader)
      requires Valid()
      modifies selection
      ensures Valid()
      ensures old(selection.current).None? ==> unchanged(selection)
      ensures old(selection.current).Some? ==>
        var name := old(selection.current).value.name;
        && selection.current == old(selection.current)
        && name in selection.cache
        && selection.Abstract() ==
             Loaded(Unloaded(old(selection.Abstract()), name), name, databases.registry[name], selection.cache[name])
        && Built(selection.cache[name], Resolve(Scan(fs, databases.registry[name]), loader))
        && selection.nameSearchText == "" && selection.typeSearchText == ""
      ensures selection.nameFilter == old(selection.nameFilter) && selection.typeFilter == old(selection.typeFilter)
    {
      selection.OnReloadPressed(fs, loader);
    }

    /** The registry list's search box now holds `query`. */
    method OnDatabaseSearch(query: string)
      requires Valid()
      modifies databases
      ensures Valid()
      ensures databases.registry == old(databases.registry) && databases.log == old(databases.log)
      ensures |databases.buttons| == |old(databases.buttons)|
      ensures forall k :: 0 <= k < |databases.buttons| ==>
        && databases.buttons[k].text == old(databases.buttons[k].text)
        && databases.buttons[k].path == old(databases.buttons[k].path)
      ensures query == "" ==> forall k :: 0 <= k < |databases.buttons| ==> databases.buttons[k].visible
      ensures query != "" ==> forall k :: 0 <= k < |databases.buttons| ==>
        (databases.buttons[k].visible <==> ContainsIgnoreCase(databases.buttons[k].text, query))
    {
      databases.OnSearchEdit(query);
    }
  }
}
