/** The left-hand list of databases: a registry from database name to folder path,
    one list entry per registered name, a search box that filters the list, and the
    configuration file the registry is saved to and loaded from. */
module Registry {
  import opened Text
  import opened Popup
  import opened Optional

  /** One database button: its text (the name), the path its press reports, and whether
      the search currently shows it. */
  datatype ListEntry = ListEntry(text: string, path: string, visible: bool)

  /** What the panel hands to the outside world, in order: a save of the configuration
      (always the whole registry) or the `DatabaseDeleted` notification. */
  datatype PanelEvent = Saved(snapshot: map<string, string>) | Deleted(name: string)

  /** The result of parsing the configuration file's text. */
  datatype Parsed = Dictionary(entries: map<string, string>) | NotDictionary

  /** The configuration file: absent, or present with some parsed content. */
  datatype ConfigFile = Missing | Present(parsed: Parsed)

  /** What the configuration file holds after these events: the snapshot of the last
      save, or None when nothing has been saved. */
  function LastSaved(events: seq<PanelEvent>): (r: Option<map<string, string>>)
    ensures r.None? <==> forall k :: 0 <= k < |events| ==> !events[k].Saved?
    ensures r.Some? ==> exists k :: 0 <= k < |events| && events[k] == Saved(r.value) &&
                                    forall j :: k < j < |events| ==> !events[j].Saved?
  {
    if events == [] then None
    else if events[|events| - 1].Saved? then Some(events[|events| - 1].snapshot)
    else LastSaved(events[..|events| - 1])
  }

  /** The list shows exactly the registry: every entry is a registered name with its
      registered path, no name appears twice, and every registered name appears. */
  ghost predicate Lists(bs: seq<ListEntry>, reg: map<string, string>)
  {
    && (forall i :: 0 <= i < |bs| ==> bs[i].text in reg && reg[bs[i].text] == bs[i].path)
    && (forall i, j :: 0 <= i < j < |bs| ==> bs[i].text != bs[j].text)
    && (forall name :: name in reg ==> exists i :: 0 <= i < |bs| && bs[i].text == name)
  }

  /** Adding an entry for a new name lists the extended registry. */
  lemma ListsAppend(bs: seq<ListEntry>, reg: map<string, string>, e: ListEntry)
    requires Lists(bs, reg) && e.text !in reg
    ensures Lists(bs + [e], reg[e.text := e.path])
  {
    var bs' := bs + [e];
    var reg' := reg[e.text := e.path];
    forall name | name in reg'
      ensures exists i :: 0 <= i < |bs'| && bs'[i].text == name
    {
      if name == e.text {
        assert bs'[|bs|].text == name;
      } else {
        var i :| 0 <= i < |bs| && bs[i].text == name;
        assert bs'[i].text == name;
      }
    }
  }

  /** Removing the entry at `i` lists the registry without that entry's name. */
  lemma ListsRemove(bs: seq<ListEntry>, reg: map<string, string>, i: nat)
    requires Lists(bs, reg) && i < |bs|
    ensures Lists(bs[..i] + bs[i + 1..], reg - {bs[i].text})
  {
    var t := bs[i].text;
    var bs' := bs[..i] + bs[i + 1..];
    assert |bs'| == |bs| - 1;
    assert forall j :: 0 <= j < |bs'| ==> bs'[j] == bs[if j < i then j else j + 1];
    forall name | name in reg - {t}
      ensures exists j :: 0 <= j < |bs'| && bs'[j].text == name
    {
      var k :| 0 <= k < |bs| && bs[k].text == name;
      if k < i {
        assert bs'[k].text == name;
      } else {
        assert k != i;
        assert bs'[k - 1].text == name;
      }
    }
  }

  /** Entries with the same names and paths list the same registry, whatever is shown. */
  lemma ListsIgnoresVisibility(a: seq<ListEntry>, b: seq<ListEntry>, reg: map<string, string>)
    requires Lists(a, reg) && |a| == |b|
    requires forall i :: 0 <= i < |a| ==> a[i].text == b[i].text && a[i].path == b[i].path
    ensures Lists(b, reg)
  {
    forall name | name in reg
      ensures exists i :: 0 <= i < |b| && b[i].text == name
    {
      var i :| 0 <= i < |a| && a[i].text == name;
      assert b[i].text == name;
    }
  }

  /** The list has exactly one entry per registered name. */
  lemma {:induction false} OneEntryPerName(bs: seq<ListEntry>, reg: map<string, string>)
    requires Lists(bs, reg)
    ensures |bs| == |reg|
    decreases |bs|
  {
    if bs == [] {
      assert forall name :: name !in reg;
      assert reg == map[];
    } else {
      var n := |bs| - 1;
      ListsRemove(bs, reg, n);
      assert bs[..n] + bs[n + 1..] == bs[..n];
      OneEntryPerName(bs[..n], reg - {bs[n].text});
      assert (reg - {bs[n].text}).Keys == reg.Keys - {bs[n].text};
    }
  }

  class DatabasePanel {
    var registry: map<string, string>
    var buttons: seq<ListEntry>
    /** Everything saved or announced so far; the last save is what the file holds. */
    var log: seq<PanelEvent>
    const popup: AddDatabasePopup

    ghost predicate Valid()
      reads this, popup
    {
      && popup.Valid()
      && Lists(buttons, registry)
      && (LastSaved(log).Some? ==> LastSaved(log).value == registry)
    }

    /** `_Ready`: starts empty and loads the configuration file. */
    constructor (cfg: ConfigFile)
      ensures Valid() && fresh(popup) && log == []
      ensures !popup.visible
      ensures cfg.Present? && cfg.parsed.Dictionary? ==> registry == cfg.parsed.entries
      ensures !(cfg.Present? && cfg.parsed.Dictionary?) ==> registry == map[]
    {
      registry := map[];
      buttons := [];
      log := [];
      popup := new AddDatabasePopup();
      new;
      LoadConfig(cfg);
    }

    /** The search box now holds `query`. An empty query shows every entry; otherwise an
        entry is shown exactly when its text contains the query, ignoring case. Names and
        paths stay as they are. */
    method OnSearchEdit(query: string)
      requires Valid()
      modifies this
      ensures Valid()
      ensures registry == old(registry) && log == old(log)
      ensures |buttons| == |old(buttons)|
      ensures forall i :: 0 <= i < |buttons| ==>
        buttons[i].text == old(buttons[i].text) && buttons[i].path == old(buttons[i].path)
      ensures query == "" ==> forall i :: 0 <= i < |buttons| ==> buttons[i].visible
      ensures query != "" ==> forall i :: 0 <= i < |buttons| ==>
        (buttons[i].visible <==> ContainsIgnoreCase(buttons[i].text, query))
    {
      var i := 0;
      while i < |buttons|
        invariant 0 <= i <= |buttons| == |old(buttons)|
        invariant registry == old(registry) && log == old(log)
        invariant forall k :: 0 <= k < |buttons| ==>
          buttons[k].text == old(buttons[k].text) && buttons[k].path == old(buttons[k].path)
        invariant query == "" ==> forall k :: 0 <= k < i ==> buttons[k].visible
        invariant query != "" ==> forall k :: 0 <= k < i ==>
          (buttons[k].visible <==> ContainsIgnoreCase(buttons[k].text, query))
      {
        if query == "" {
          if !buttons[i].visible {
            buttons := buttons[i := buttons[i].(visible := true)];
          }
        } else {
          var shown := ContainsIgnoreCase(buttons[i].text, query);
          buttons := buttons[i := buttons[i].(visible := shown)];
        }
        i := i + 1;
      }
      ListsIgnoresVisibility(old(buttons), buttons, registry);
    }

    /** The "+" button opens the add dialog. */
    method OpenAddDialog()
      modifies popup
      ensures popup.visible
      ensures popup.nameText == old(popup.nameText) && popup.pathText == old(popup.pathText)
      ensures popup.Valid() == old(popup.Valid())
      ensures popup.confirmDisabled == old(popup.confirmDisabled)
    {
      popup.Popup();
    }

    /** The add dialog confirmed: its texts are handed to OnAddDatabase and it closes. The
        dialog and the panel are separate objects, so the order of the two makes no difference. */
    method ConfirmAdd() returns (name: string, path: string)
      requires Valid() && !popup.confirmDisabled
      modifies this, popup
      ensures Valid()
      ensures name == old(popup.nameText) && path == old(popup.pathText)
      ensures |name| > 0 && |path| > 0
      ensures name in old(registry) ==> registry == old(registry) && buttons == old(buttons) && log == old(log)
      ensures name !in old(registry) ==>
        && registry == old(registry)[name := path]
        && buttons == old(buttons) + [ListEntry(name, path, true)]
        && log == old(log) + [Saved(registry)]
      ensures !popup.visible && popup.nameText == "" && popup.pathText == "" && popup.confirmDisabled
    {
      name, path := popup.OnConfirm();
      OnAddDatabase(name, path);
    }

    /** Registers `name` unless it is already registered; a new name gets one list entry,
        and the whole registry is saved. A name already present changes nothing. */
    method OnAddDatabase(name: string, path: string)
      requires Valid()
      modifies this
      ensures Valid()
      ensures name in old(registry) ==> registry == old(registry) && buttons == old(buttons) && log == old(log)
      ensures name !in old(registry) ==>
        && registry == old(registry)[name := path]
        && buttons == old(buttons) + [ListEntry(name, path, true)]
        && log == old(log) + [Saved(registry)]
    {
      if name in registry {
        return;
      }
      ListsAppend(buttons, registry, ListEntry(name, path, true));
      registry := registry[name := path];
      BuildButton(name, path);
      SaveConfig();
    }

    /** The registry loses `name` (a name that is absent leaves it as it was), the result
        is saved, and then the deletion is announced. */
    method OnDatabaseDeleted(name: string)
      modifies this
      ensures registry == old(registry) - {name}
      ensures name !in old(registry) ==> registry == old(registry)
      ensures buttons == old(buttons)
      ensures log == old(log) + [Saved(old(registry) - {name}), Deleted(name)]
    {
      registry := registry - {name};
      SaveConfig();
      log := log + [Deleted(name)];
    }

    /** The delete button of entry `i` was pressed: the entry's name is deleted from the
        registry, and the entry then leaves the list. */
    method OnDeletePressed(i: nat) returns (name: string)
      requires Valid() && i < |buttons|
      modifies this
      ensures Valid()
      ensures name == old(buttons[i].text) && name in old(registry)
      ensures registry == old(registry) - {name} && name !in registry
      ensures buttons == old(buttons[..i] + buttons[i + 1..])
      ensures log == old(log) + [Saved(registry), Deleted(name)]
    {
      name := buttons[i].text;
      OnDatabaseDeleted(name);
      ListsRemove(buttons, old(registry), i);
      buttons := buttons[..i] + buttons[i + 1..];
    }

    /** Entry `i` was pressed: it reports the name and the path it was built with, which
        are a registered name and its registered path. */
    method OnButtonPressed(i: nat) returns (name: string, path: string)
      requires Valid() && i < |buttons|
      ensures name in registry && registry[name] == path
      ensures name == buttons[i].text
    {
      name, path := buttons[i].text, buttons[i].path;
    }

    /** Adds one visible entry for `name` at the end of the list. */
    method BuildButton(name: string, path: string)
      modifies this
      ensures buttons == old(buttons) + [ListEntry(name, path, true)]
      ensures registry == old(registry) && log == old(log)
    {
      buttons := buttons + [ListEntry(name, path, true)];
    }

    /** One entry per registered name is added after the existing ones, in no particular order. */
    method UpdateList()
      modifies this
      ensures registry == old(registry) && log == old(log)
      ensures |buttons| >= |old(buttons)| && buttons[..|old(buttons)|] == old(buttons)
      ensures Lists(buttons[|old(buttons)|..], registry)
    {
      var start := |buttons|;
      var remaining := registry.Keys;
      assert buttons[start..] == [];
      assert registry - remaining == map[];
      while remaining != {}
        invariant remaining <= registry.Keys
        invariant registry == old(registry) && log == old(log)
        invariant |buttons| >= start && buttons[..start] == old(buttons)
        invariant Lists(buttons[start..], registry - remaining)
        decreases remaining
      {
        var name :| name in remaining;
        ghost var before := buttons[start..];
        ListsAppend(before, registry - remaining, ListEntry(name, registry[name], true));
        BuildButton(name, registry[name]);
        assert buttons[start..] == before + [ListEntry(name, registry[name], true)];
        assert (registry - remaining)[name := registry[name]] == registry - (remaining - {name});
        remaining := remaining - {name};
      }
      assert registry - remaining == registry;
    }

    /** Saves the whole registry, never a difference. */
    method SaveConfig()
      modifies this
      ensures log == old(log) + [Saved(registry)]
      ensures registry == old(registry) && buttons == old(buttons)
    {
      log := log + [Saved(registry)];
    }

    /** A missing file, or content that is not a dictionary, leaves everything as it was.
        Otherwise the parsed dictionary becomes the registry and gets one entry per name. */
    method LoadConfig(cfg: ConfigFile)
      modifies this
      ensures !(cfg.Present? && cfg.parsed.Dictionary?) ==>
        registry == old(registry) && buttons == old(buttons) && log == old(log)
      ensures cfg.Present? && cfg.parsed.Dictionary? ==>
        && registry == cfg.parsed.entries && log == old(log)
        && |buttons| >= |old(buttons)| && buttons[..|old(buttons)|] == old(buttons)
        && Lists(buttons[|old(buttons)|..], registry)
    {
      if cfg.Missing? || cfg.parsed.NotDictionary? {
        return;
      }
      registry := cfg.parsed.entries;
      UpdateList();
    }
  }
}
