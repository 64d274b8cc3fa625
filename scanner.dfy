/** The directory walk that fills a database's grid: every file below the root whose name
    ends in ".tres" or ".res" and that the resource loader can load becomes one item.

    The file system is an abstract, finite and acyclic tree. A directory lists its entries
    as `DirAccess.GetNext` returns them (hidden entries are already left out there);
    an entry named "" ends the listing (that is what `DirAccess.GetNext` returns at the end),
    and "." and ".." stand for the navigation entries, which are skipped. */
module Scanner {
  import opened Text
  import opened Resources

  datatype Node =
    | File(name: string)
    | Dir(name: string, readable: bool, entries: seq<Node>)

  /** Where each absolute path leads; a path that is absent does not exist. */
  type FileSystem = map<string, Node>

  /** `ResourceLoader.Load`: the resource a full path loads to; absent means it loads to null. */
  type Loader = map<string, Resource>

  /** A file the walk hands to the loader: its full path and its file name. The file name is
      the entry's own name, which is what `GetFile()` gives for names without `/` or `\`. */
  datatype Candidate = Candidate(fullPath: string, fileName: string)

  /** What the loader turned a candidate into. */
  datatype Source = Source(res: Resource, fileName: string)

  /** A `.tres` or `.res` name, by an ordinal suffix test. */
  predicate IsResourceFile(name: string)
  {
    EndsWith(name, ".tres") || EndsWith(name, ".res")
  }

  predicate IsNavigational(name: string)
  {
    name == "." || name == ".."
  }

  /** The candidates below `path`, where `n` is what `path` leads to. Anything but a
      readable directory yields none: one that does not exist or cannot be opened. */
  function Walk(path: string, n: Node): seq<Candidate>
    decreases n, 1
  {
    if n.Dir? && n.readable then WalkEntries(path, n, 0) else []
  }

  /** The candidates from entry `i` of directory `d` onwards, in listing order. */
  function WalkEntries(path: string, d: Node, i: nat): seq<Candidate>
    requires d.Dir? && i <= |d.entries|
    decreases d, 0, |d.entries| - i
  {
    if i == |d.entries| || d.entries[i].name == "" then []
    else EntryCandidates(path, d.entries[i]) + WalkEntries(path, d, i + 1)
  }

  /** The candidates one directory entry contributes. */
  function EntryCandidates(path: string, e: Node): seq<Candidate>
    decreases e, 2
  {
    var full := path + "/" + e.name;
    if IsNavigational(e.name) then []
    else if e.Dir? then Walk(full, e)
    else if IsResourceFile(e.name) then [Candidate(full, e.name)]
    else []
  }

  /** Everything below `path` in the file system: nothing for a root that does not exist. */
  function Scan(fs: FileSystem, path: string): seq<Candidate>
  {
    if path in fs then Walk(path, fs[path]) else []
  }

  /** The loaded resources of the candidates, in order, skipping those that load to null. */
  function Resolve(cands: seq<Candidate>, loader: Loader): (r: seq<Source>)
    ensures |r| <= |cands|
  {
    if cands == [] then []
    else
      (if cands[0].fullPath in loader then [Source(loader[cands[0].fullPath], cands[0].fileName)] else [])
      + Resolve(cands[1..], loader)
  }

  // ---------------------------------------------------------------------------
  // A reference description of what the walk should find, independent of order.

  /** No entry anywhere in the tree has an empty name (true of any real directory). */
  ghost predicate WellFormed(n: Node)
    decreases n
  {
    n.Dir? ==> forall i :: 0 <= i < |n.entries| ==> n.entries[i].name != "" && WellFormed(n.entries[i])
  }

  /** `c` names a file found below `path` by descending through readable directories
      and skipping navigation entries. */
  ghost predicate Reaches(path: string, n: Node, c: Candidate)
    decreases n, 1
  {
    n.Dir? && n.readable && exists i :: 0 <= i < |n.entries| && EntryReaches(path, n.entries[i], c)
  }

  ghost predicate EntryReaches(path: string, e: Node, c: Candidate)
    decreases e, 2
  {
    var full := path + "/" + e.name;
    !IsNavigational(e.name) &&
    if e.File? then c == Candidate(full, e.name) else Reaches(full, e, c)
  }

  /** Each candidate is a resource file, not a navigation entry, and lies below `path`. */
  ghost predicate SoundCandidate(path: string, c: Candidate)
  {
    IsResourceFile(c.fileName) && !IsNavigational(c.fileName) &&
    path + "/" <= c.fullPath && EndsWith(c.fullPath, "/" + c.fileName)
  }

  lemma PrefixTransitive(a: string, b: string, c: string)
    requires a <= b && b <= c
    ensures a <= c
  {
    assert c[..|a|] == b[..|a|];
  }

  lemma {:induction false} WalkSound(path: string, n: Node, c: Candidate)
    requires c in Walk(path, n)
    ensures SoundCandidate(path, c)
    decreases n, 1
  {
    WalkEntriesSound(path, n, 0, c);
  }

  lemma {:induction false} WalkEntriesSound(path: string, d: Node, i: nat, c: Candidate)
    requires d.Dir? && i <= |d.entries|
    requires c in WalkEntries(path, d, i)
    ensures SoundCandidate(path, c)
    decreases d, 0, |d.entries| - i
  {
    var e := d.entries[i];
    if c in EntryCandidates(path, e) {
      EntrySound(path, e, c);
    } else {
      WalkEntriesSound(path, d, i + 1, c);
    }
  }

  lemma {:induction false} EntrySound(path: string, e: Node, c: Candidate)
    requires c in EntryCandidates(path, e)
    ensures SoundCandidate(path, c)
    decreases e, 2
  {
    var full := path + "/" + e.name;
    if e.Dir? {
      WalkSound(full, e, c);
      assert path + "/" <= full + "/";
      PrefixTransitive(path + "/", full + "/", c.fullPath);
    } else {
      assert c.fullPath == (path + "/") + e.name;
      assert c.fullPath == path + ("/" + e.name);
    }
  }

  /** Every candidate of a scan is a resource file lying below the scanned root. */
  lemma ScanSound(fs: FileSystem, path: string, c: Candidate)
    requires c in Scan(fs, path)
    ensures SoundCandidate(path, c)
  {
    WalkSound(path, fs[path], c);
  }

  /** In a well-formed tree the walk finds exactly the reachable resource files. */
  lemma {:induction false} WalkComplete(path: string, n: Node, c: Candidate)
    requires WellFormed(n)
    ensures c in Walk(path, n) <==> Reaches(path, n, c) && IsResourceFile(c.fileName)
    decreases n, 1
  {
    if n.Dir? && n.readable {
      WalkEntriesComplete(path, n, 0, c);
    }
  }

  lemma {:induction false} WalkEntriesComplete(path: string, d: Node, i: nat, c: Candidate)
    requires d.Dir? && i <= |d.entries| && WellFormed(d)
    ensures c in WalkEntries(path, d, i) <==>
      IsResourceFile(c.fileName) && exists j :: i <= j < |d.entries| && EntryReaches(path, d.entries[j], c)
    decreases d, 0, |d.entries| - i
  {
    if i < |d.entries| {
      var e := d.entries[i];
      EntryComplete(path, e, c);
      WalkEntriesComplete(path, d, i + 1, c);
      if IsResourceFile(c.fileName) && exists j :: i <= j < |d.entries| && EntryReaches(path, d.entries[j], c) {
        var j :| i <= j < |d.entries| && EntryReaches(path, d.entries[j], c);
        if j == i {
          assert c in EntryCandidates(path, e);
        } else {
          assert c in WalkEntries(path, d, i + 1);
        }
      }
    }
  }

  lemma {:induction false} EntryComplete(path: string, e: Node, c: Candidate)
    requires WellFormed(e)
    ensures c in EntryCandidates(path, e) <==> EntryReaches(path, e, c) && IsResourceFile(c.fileName)
    decreases e, 2
  {
    if e.Dir? {
      WalkComplete(path + "/" + e.name, e, c);
    }
  }

  /** A root that does not exist, is not a directory, or cannot be opened yields nothing. */
  lemma UnavailableRootScansNothing(fs: FileSystem, path: string)
    requires path !in fs || !fs[path].Dir? || !fs[path].readable
    ensures Scan(fs, path) == []
  {
  }

  // ---------------------------------------------------------------------------
  // Resolution through the loader.

  lemma {:induction false} ResolveAppend(a: seq<Candidate>, b: seq<Candidate>, loader: Loader)
    ensures Resolve(a + b, loader) == Resolve(a, loader) + Resolve(b, loader)
  {
    if a == [] {
      assert a + b == b;
    } else {
      assert (a + b)[0] == a[0];
      assert (a + b)[1..] == a[1..] + b;
      ResolveAppend(a[1..], b, loader);
    }
  }

  /** Resolving the rest of a listing from entry `i` is resolving entry `i`, then the rest after it. */
  lemma ResolveWalkStep(path: string, d: Node, i: nat, loader: Loader)
    requires d.Dir? && i < |d.entries| && d.entries[i].name != ""
    ensures Resolve(WalkEntries(path, d, i), loader) ==
      Resolve(EntryCandidates(path, d.entries[i]), loader) + Resolve(WalkEntries(path, d, i + 1), loader)
  {
    ResolveAppend(EntryCandidates(path, d.entries[i]), WalkEntries(path, d, i + 1), loader);
  }

  /** A source comes out of resolution exactly when some candidate loads to it. */
  lemma {:induction false} ResolveMembership(cands: seq<Candidate>, loader: Loader, s: Source)
    ensures s in Resolve(cands, loader) <==>
      exists k :: 0 <= k < |cands| && cands[k].fullPath in loader &&
        s == Source(loader[cands[k].fullPath], cands[k].fileName)
  {
    if cands != [] {
      ResolveMembership(cands[1..], loader, s);
      if exists k :: 0 <= k < |cands| && cands[k].fullPath in loader &&
          s == Source(loader[cands[k].fullPath], cands[k].fileName) {
        var k :| 0 <= k < |cands| && cands[k].fullPath in loader &&
          s == Source(loader[cands[k].fullPath], cands[k].fileName);
        if k > 0 {
          assert cands[1..][k - 1] == cands[k];
        }
      }
      if s in Resolve(cands[1..], loader) {
        var k :| 0 <= k < |cands[1..]| && cands[1..][k].fullPath in loader &&
          s == Source(loader[cands[1..][k].fullPath], cands[1..][k].fileName);
        assert cands[k + 1] == cands[1..][k];
      }
    }
  }

  /** When every candidate loads, there is one item per candidate, in the same order. */
  lemma {:induction false} ResolveAllLoaded(cands: seq<Candidate>, loader: Loader)
    requires forall k :: 0 <= k < |cands| ==> cands[k].fullPath in loader
    ensures |Resolve(cands, loader)| == |cands|
    ensures forall k :: 0 <= k < |cands| ==>
      Resolve(cands, loader)[k] == Source(loader[cands[k].fullPath], cands[k].fileName)
  {
    if cands != [] {
      ResolveAllLoaded(cands[1..], loader);
    }
  }
}
