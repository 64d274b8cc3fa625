# ResDB editor plugin — a Dafny model

ResDB is a Godot editor plugin. The user registers named "databases", each a folder of
resource files. The plugin then browses a database's resources as a grid of tiles and
filters the tiles by name and by type. This project models the plugin's logic with the
Godot objects made abstract:

- **Registry** (`database_panel.dfy`, class `DatabasePanel`) models the name→path registry.
  - Add is insert-if-absent; a duplicate changes nothing.
  - Delete removes the name, saves, then announces the deletion.
  - The list has one entry per registered name, and a search box filters it.
  - The configuration is loaded from a file and saved back as a whole.
- **Popup** (`add_database_popup.dfy`, class `AddDatabasePopup`) models the add dialog. Its
  Confirm button is enabled exactly while both the name box and the path box hold text.
- **Selection** (`selection_panel.dfy`, class `SelectionPanel`) models the grid panel.
  - It keeps a per-name cache of built grids and the active `(name, path)`.
  - `Load` serves the cache on a hit and scans on a miss. `Unload` evicts.
  - Reload is Unload followed by Load.
  - The shown grid is filtered by two case-insensitive substring filters, combined with AND.
- **Scanner** (`scanner.dfy`) models the recursive directory walk that finds the files named
  `*.tres` or `*.res`, over an abstract directory tree.
  - The loader is a partial map from full path to resource.
  - Walk soundness and completeness are proved against a reference "reachable file" predicate.
- **ItemButtons** (`item_buttons.dfy`, class `DatabaseItemButton`) models one grid tile.
  - The display name falls back from the `Name` property to `Id` to the file name.
  - An inspector property edit re-derives the name only in the cases the source handles.
  - An inspector switch to another object unpresses the tile.
- **Session** (`database_tab.dfy`, class `DatabaseTab`) composes the two panels the way the
  tab wires them: pressing a database loads it and deleting one unloads it.
  - Its invariant: the cache holds only registered names, and the active database is
    registered under the path it was loaded with.
  - So a database deleted and added again under the same name is scanned afresh.
- **Text** (`text.dfy`) holds ordinal substring search and case-insensitive comparison.
- **Resources** (`resources.dfy`) holds resources with string-or-other properties.

Behaviour of the Godot runtime that the model relies on:

- Setting a `LineEdit`'s text from code does not raise `TextChanged`.
  - So Reload empties both search boxes but keeps the filter strings:
    `SelectionPanel.nameFilter` and `nameSearchText` are separate fields.
- `LineEdit.Clear()` does raise `TextChanged`, so closing the add dialog resets its two flags.
- With nothing being inspected, the tile's `inspectorObject.Equals(...)` call throws and
  the handler ends without effect. The model treats it as a no-op.
- The grid on screen is the cached grid of the active database. The source frees a grid
  exactly when its name is unloaded, so `IsInstanceValid(_selectionGrid)` holds exactly when a
  database is active.
- A newly built grid is not filtered: its tiles are all visible whatever the search boxes hold.
  A cached grid keeps the visibility it had.

Two further facts of the code:
- Registry keys are compared exactly: `_namePathDict` (DatabasePanel.cs:21) is a
  `Dictionary<string, string>` with no case-insensitive comparer, so two names that differ
  only in case are two databases.
- A database's path is reported by the closure its button captured when it was built, and
  the model shows it equals the registered path.

## Model

| member | source | states |
|---|---|---|
| Text.ContainsIffOccurs | addons/ResDB/ui/SelectionPanel.cs:51-55 | The substring test used by every search holds exactly when the query occurs at some position of the text |
| Text.EmptyQueryAlwaysContained | addons/ResDB/ui/SelectionPanel.cs:51-55 | An empty query is contained in every string, with or without case folding |
| Text.ExactMatchImpliesIgnoreCase | addons/ResDB/ui/DatabasePanel.cs:47 | A case-sensitive occurrence is also a case-insensitive one |
| Text.IgnoreCaseIsCaseBlind | addons/ResDB/ui/DatabasePanel.cs:47 | Case-insensitive containment gives the same answer when either side is case-folded first |
| ItemButtons.DisplayName | addons/ResDB/ui/DatabaseItemButton.cs:109-121 | The tile name is the `Name` property if it is a non-empty string, else `Id` if that is, else the file name; a non-empty file name gives a non-empty display name |
| ItemButtons.EditedName | addons/ResDB/ui/DatabaseItemButton.cs:73-94 | After an inspector edit, any new name is the DisplayName. A `Name` edit (case ignored) always re-derives the name. An `Id` edit re-derives it exactly when `Name` has no value. Edits of other properties never do |
| ItemButtons.NameAndIdAreDistinctProperties | addons/ResDB/ui/DatabaseItemButton.cs:73-74 | No property name equals both "Name" and "Id" ignoring case |
| ItemButtons.DatabaseItemButton.constructor | addons/ResDB/ui/DatabaseItemButton.cs:13-19 | A fresh tile is not ready, not pressed, bound to no resource |
| ItemButtons.DatabaseItemButton.Ready | addons/ResDB/ui/DatabaseItemButton.cs:21-40 | `_Ready` marks the tile ready and changes nothing else |
| ItemButtons.DatabaseItemButton.Set | addons/ResDB/ui/DatabaseItemButton.cs:97-103 | Before ready the tile is unchanged; once ready it holds the resource and the file name and shows DisplayName and the type |
| ItemButtons.DatabaseItemButton.SetResName | addons/ResDB/ui/DatabaseItemButton.cs:109-124 | Name and name label become DisplayName of the resource; the file name is stored |
| ItemButtons.DatabaseItemButton.SetResType | addons/ResDB/ui/DatabaseItemButton.cs:126-130 | Type is the resource's type name and the label is "Type: " followed by it |
| ItemButtons.DatabaseItemButton.OnEditorObjectChanged | addons/ResDB/ui/DatabaseItemButton.cs:63-67 | A pressed tile is unpressed when the inspector switches to another object; an unpressed tile is never changed |
| ItemButtons.DatabaseItemButton.OnEditorPropertyEdited | addons/ResDB/ui/DatabaseItemButton.cs:69-95 | Only a pressed tile whose own resource is inspected reacts, and its name changes exactly as EditedName says |
| ItemButtons.DatabaseItemButton.SetPressed | addons/ResDB/ui/DatabaseItemButton.cs:65-66 | Sets the pressed state and nothing else |
| Scanner.Resolve | addons/ResDB/ui/SelectionPanel.cs:133-142 | Loading the candidates yields at most one item per candidate |
| Scanner.ResolveMembership | addons/ResDB/ui/SelectionPanel.cs:133-142 | An item is produced exactly when some candidate loads to its resource under its file name |
| Scanner.ResolveAllLoaded | addons/ResDB/ui/SelectionPanel.cs:133-142 | When every candidate loads, there is exactly one item per candidate, in order |
| Scanner.WalkSound | addons/ResDB/ui/SelectionPanel.cs:113-139 | Every file the walk finds has a `.tres` or `.res` name, is not `.` or `..`, and lies below the root |
| Scanner.WalkEntriesSound | addons/ResDB/ui/SelectionPanel.cs:126-137 | The same, for the entries of one listing from a given position on |
| Scanner.EntrySound | addons/ResDB/ui/SelectionPanel.cs:127-136 | The same, for the files one directory entry contributes |
| Scanner.ScanSound | addons/ResDB/ui/SelectionPanel.cs:113-139 | Every candidate of a scan of a root is a resource file below that root |
| Scanner.WalkComplete | addons/ResDB/ui/SelectionPanel.cs:113-139 | In a tree with no empty entry names, the walk finds a file iff it is reachable through readable directories, skipping `.` and `..`, and has a resource suffix |
| Scanner.WalkEntriesComplete | addons/ResDB/ui/SelectionPanel.cs:126-137 | The same iff, for the entries of one listing from a given position on |
| Scanner.EntryComplete | addons/ResDB/ui/SelectionPanel.cs:127-136 | The same iff, for one directory entry |
| Scanner.UnavailableRootScansNothing | addons/ResDB/ui/SelectionPanel.cs:114-123 | A root that is missing, not a directory, or cannot be opened yields no items |
| Selection.MatchesIsTwoContainments | addons/ResDB/ui/SelectionPanel.cs:51-57 | A tile is shown iff its name contains the name filter and its type contains the type filter, ignoring case |
| Selection.EmptyFiltersShowAll | addons/ResDB/ui/SelectionPanel.cs:51-57 | With both filters empty every tile is shown |
| Selection.NameMismatchHides | addons/ResDB/ui/SelectionPanel.cs:51-57 | A tile whose name lacks the name query is hidden whatever the type filter |
| Selection.Unloaded | addons/ResDB/ui/SelectionPanel.cs:90-98 | Unload removes the name from the cache and keeps every other entry. It clears the active database iff that database has the name, and it keeps the cache coherent with the active database |
| Selection.Loaded | addons/ResDB/ui/SelectionPanel.cs:75-88 | Load makes `(name, path)` active and keeps every existing cache entry. On a hit the cache is unchanged; on a miss the new grid is cached under the name |
| Selection.UnloadIdempotent | addons/ResDB/ui/SelectionPanel.cs:90-98 | A second Unload of the same name changes nothing |
| Selection.LoadHitIgnoresScan | addons/ResDB/ui/SelectionPanel.cs:76-81 | On a cache hit neither the path nor a new scan affects the cache |
| Selection.LoadTwiceScansOnce | addons/ResDB/ui/SelectionPanel.cs:75-88 | Loading the same database twice is the same as loading it once |
| Selection.UnloadThenLoadRescans | addons/ResDB/ui/SelectionPanel.cs:61-68 | Unload then Load caches the new scan under the name, never the evicted grid, and leaves the other grids alone |
| Selection.SelectionPanel.constructor | addons/ResDB/ui/SelectionPanel.cs:17-21 | The panel starts with an empty cache, no active database and empty filters |
| Selection.SelectionPanel.OnNameSearchEdit | addons/ResDB/ui/SelectionPanel.cs:36-39 | The name filter becomes the text and the shown grid is filtered with it. Only visibility changes: every shown tile keeps its name, type, resource, file name, labels and pressed state, and cache and active database are unchanged |
| Selection.SelectionPanel.OnTypeSearchEdit | addons/ResDB/ui/SelectionPanel.cs:41-44 | The type filter becomes the text and the shown grid is filtered with it. Only visibility changes: every shown tile keeps its name, type, resource, file name, labels and pressed state, and cache and active database are unchanged |
| Selection.SelectionPanel.ApplySearchFilter | addons/ResDB/ui/SelectionPanel.cs:46-59 | Every tile of the shown grid is visible exactly when it matches both filters. Nothing but visibility changes, and with no grid shown nothing happens |
| Selection.SelectionPanel.Load | addons/ResDB/ui/SelectionPanel.cs:75-88 | The new state is Loaded of the old one. On a miss the cached grid holds fresh tiles showing, in order, the loaded resources of a scan of the path |
| Selection.SelectionPanel.Unload | addons/ResDB/ui/SelectionPanel.cs:90-98 | The new state is Unloaded of the old one |
| Selection.SelectionPanel.OnReloadPressed | addons/ResDB/ui/SelectionPanel.cs:61-68 | With no active database nothing changes. Otherwise the state is Unload then Load of the active database, its grid is a fresh scan of its path, and both search boxes are emptied while the filters stay |
| Selection.SelectionPanel.UpdateGridItems | addons/ResDB/ui/SelectionPanel.cs:113-139 | The tiles added for a directory are fresh and show, in listing order, exactly the resolved candidates of the walk of that directory |
| Selection.SelectionPanel.UpdateEntry | addons/ResDB/ui/SelectionPanel.cs:127-136 | One listing entry adds tiles for exactly the resolved candidates it contributes |
| Selection.SelectionPanel.BuildItem | addons/ResDB/ui/SelectionPanel.cs:141-152 | A null resource adds no tile. Otherwise exactly one fresh tile is added, ready and visible, showing the resource and file name |
| Popup.AddDatabasePopup.constructor | addons/ResDB/ui/AddDatabasePopup.cs:18-31 | The dialog starts hidden with Confirm disabled |
| Popup.AddDatabasePopup.OnNameChanged | addons/ResDB/ui/AddDatabasePopup.cs:42-45 | The name flag is set iff the name is non-empty, the path flag is untouched, and Confirm is enabled iff both flags are set |
| Popup.AddDatabasePopup.OnPathChanged | addons/ResDB/ui/AddDatabasePopup.cs:47-50 | The path flag is set iff the path is non-empty, the name flag is untouched, and Confirm is enabled iff both flags are set |
| Popup.AddDatabasePopup.VerifyData | addons/ResDB/ui/AddDatabasePopup.cs:52-58 | Confirm is disabled iff one of the flags is unset |
| Popup.AddDatabasePopup.Popup | addons/ResDB/ui/AddDatabasePopup.cs:60-66 | The dialog becomes visible and nothing else changes |
| Popup.AddDatabasePopup.OnConfirm | addons/ResDB/ui/AddDatabasePopup.cs:37-40 | The name and path texts are handed on once, then the dialog is closed |
| Popup.AddDatabasePopup.OnCancel | addons/ResDB/ui/AddDatabasePopup.cs:33-35 | The dialog is closed and nothing is handed on |
| Popup.AddDatabasePopup.Close | addons/ResDB/ui/AddDatabasePopup.cs:68-76 | Both texts are emptied, Confirm is disabled and the dialog is hidden |
| Registry.LastSaved | addons/ResDB/ui/DatabasePanel.cs:85-95 | The saved configuration is the snapshot of the last save, and None only when nothing was saved |
| Registry.ListsAppend | addons/ResDB/ui/DatabasePanel.cs:56-60 | An entry added for a new name makes the list show the extended registry |
| Registry.ListsRemove | addons/ResDB/ui/DatabaseButton.cs:40-43 | Removing an entry makes the list show the registry without that entry's name |
| Registry.ListsIgnoresVisibility | addons/ResDB/ui/DatabasePanel.cs:36-54 | Changing only what is shown keeps the list in step with the registry |
| Registry.OneEntryPerName | addons/ResDB/ui/DatabasePanel.cs:79-83 | A list in step with the registry has exactly as many entries as the registry has names |
| Registry.DatabasePanel.constructor | addons/ResDB/ui/DatabasePanel.cs:23-34 | The panel starts from the configuration file: the parsed dictionary if there is one, else empty, with nothing saved |
| Registry.DatabasePanel.OnSearchEdit | addons/ResDB/ui/DatabasePanel.cs:36-54 | An empty query shows every entry. Otherwise an entry is shown iff its text contains the query ignoring case. Names, paths and the registry are unchanged |
| Registry.DatabasePanel.OpenAddDialog | addons/ResDB/ui/DatabasePanel.cs:30 | The "+" button shows the add dialog |
| Registry.DatabasePanel.ConfirmAdd | addons/ResDB/ui/DatabasePanel.cs:31 | Confirming the dialog adds its two non-empty texts as OnAddDatabase does, and closes it |
| Registry.DatabasePanel.OnAddDatabase | addons/ResDB/ui/DatabasePanel.cs:56-60 | A registered name changes nothing: no insert, no entry, no save. A new name is inserted with its path, gets exactly one entry, and the whole registry is saved once. The list stays in step and the last save is the registry |
| Registry.DatabasePanel.OnDatabaseDeleted | addons/ResDB/ui/DatabasePanel.cs:62-66 | The name is removed; an absent name leaves the map as it was. The result is saved before the deletion is announced |
| Registry.DatabasePanel.OnDeletePressed | addons/ResDB/ui/DatabaseButton.cs:40-43 | Pressing an entry's delete button deletes its registered name and then removes exactly that entry from the list |
| Registry.DatabasePanel.OnButtonPressed | addons/ResDB/ui/DatabasePanel.cs:75 | A pressed entry reports a registered name together with that name's registered path |
| Registry.DatabasePanel.BuildButton | addons/ResDB/ui/DatabasePanel.cs:68-77 | Exactly one visible entry for the name and path is appended |
| Registry.DatabasePanel.UpdateList | addons/ResDB/ui/DatabasePanel.cs:79-83 | The appended entries show the registry exactly: one per name, with its path |
| Registry.DatabasePanel.SaveConfig | addons/ResDB/ui/DatabasePanel.cs:85-95 | A save records the whole current registry, never a difference |
| Registry.DatabasePanel.LoadConfig | addons/ResDB/ui/DatabasePanel.cs:97-111 | A missing file or non-dictionary content changes nothing. Otherwise the dictionary replaces the registry and gets one entry per name |
| Session.DatabaseTab.constructor | addons/ResDB/ui/DatabaseTab.cs:11-17 | The tab starts with the parsed dictionary as registry, or an empty registry when the file is missing or not a dictionary. Nothing is saved, the dialog is hidden, the cache is empty, no database is active and the filters are empty |
| Session.DatabaseTab.OnDatabasePressed | addons/ResDB/ui/DatabaseTab.cs:19-21 | The grid panel's new state is Loaded of the old one for the pressed name and its registered path: every other cached grid stays. On a miss the grid is a fresh scan of the registered path. The filters and boxes are kept |
| Session.DatabaseTab.OnDeletePressed | addons/ResDB/ui/DatabaseTab.cs:23-25 | The registry and list lose exactly that name and entry, a save precedes the announcement, and the grid panel's new state is Unloaded of the old one: every other name stays cached with its grid, and the active database is cleared iff it was the one deleted |
| Session.DatabaseTab.OnConfirmAdd | addons/ResDB/ui/DatabasePanel.cs:56-60 | The dialog's two non-empty texts are added as OnAddDatabase does: a duplicate changes nothing and saves nothing, a new name gets one entry and one whole-registry save. The dialog ends closed, cleared and with Confirm disabled |
| Session.DatabaseTab.OnReloadPressed | addons/ResDB/ui/SelectionPanel.cs:61-68 | With no active database nothing changes. Otherwise the grid panel's state is Unload then Load of the active database, so the other grids stay, its grid is a fresh scan of its registered path, and both search boxes are emptied while the filters stay |
| Session.DatabaseTab.OnDatabaseSearch | addons/ResDB/ui/DatabasePanel.cs:36-54 | An empty query shows every list entry; otherwise an entry is shown iff its text contains the query ignoring case. Names, paths, registry and saves are unchanged |

## Left out

- File and JSON I/O (`FileAccess`, `DirAccess.MakeDirAbsolute`, `Json.Stringify`, `Json.ParseString`).
  - The configuration file is an input: missing, not a dictionary, or a dictionary of strings.
  - Saves are recorded as snapshots in an event log.
  - A dictionary whose values are not strings (the cast in `LoadConfig` would throw) is not modelled.
- The iteration order of the registry dictionary. `UpdateList` builds the entries in an unspecified order.
- The directory listing order, which is whatever order the abstract tree gives.
- `ResourceLoader.Load` is an opaque partial map from full path to resource.
- The directory tree is finite and acyclic. A cycle of directory links, which `CurrentIsDir()` follows and which makes the recursion in `UpdateGridItems` run until the stack overflows, cannot be expressed.
- A directory's `entries` are the listing `DirAccess.GetNext` returns. With Godot's defaults that listing already leaves out hidden entries. The walk's own skipping of "." and ".." is modelled as written.
- The resource-suffix test is ordinal: `IsResourceFile` compares characters exactly, unlike the culture-sensitive `String.EndsWith(string)`, under which a trailing ignorable code point (a soft hyphen, say) still matches.
- Entry names are assumed to contain neither `/` nor `\`. The model takes an entry's own name as its file name, where `GetFile()` would split the full path at either character.
- Case-insensitive matching folds ASCII letters only, not the full Unicode case tables of `OrdinalIgnoreCase`.
- Scanner.WalkComplete: the walk is not proved to find each file at most once. That would need distinct entry names per directory and names without "/".
- Godot scene-tree operations: `AddChild`, `RemoveChild`, `GetNode`, `Instantiate`, the `ButtonGroup` that keeps one database pressed.
  - `QueueFree` is modelled as immediate removal.
  - The grid shown is derived from the cache instead of being a separate field.
- `BuildItem`'s "No ItemGrid found" branch is not modelled: `UpdateItemGrid` has always just created the grid.
- Error messages printed with `GD.PrintErr`.
- Registry.DatabasePanel.SaveConfig: saves are assumed to succeed. When the file cannot be opened, `FileAccess.Open` returns null and the save throws. That would end `OnDatabaseDeleted` before the deletion is announced, and `DatabaseButton.OnDeletePressed` before the entry is freed. The deleted name would then stay cached and listed, which the session invariant excludes.
- Presentation:
  - icons (`SetResIcon`);
  - label colours (`OnHighlight`, `OnUnhighlight`);
  - the parent's mouse filter in the add dialog;
  - the grid's column layout.
- Inspecting a tile's resource when it is toggled on (`OnToggled`) is an editor call. The inspected object is a parameter of the tile's handlers.
- The delete button's show and hide on toggle and hover, and the deferred hide (`addons/ResDB/ui/DatabaseButton.cs`).
- The editor plugin's lifecycle and main-screen hosting (`addons/ResDB/ResDBPlugin.cs`).
- `OnCompilePressed`, whose body is empty.
- Concurrency: the plugin runs on the single editor thread.
