/** The folder map: one bulk listing, then a breadth-first walk over `parents`. */
module FolderWalk {
  import opened DriveItems
  import FirstSeen

  /** A folder the walk may descend into: in the corpus, with exactly one parent. */
  predicate Eligible(folder: DriveItem, location: DriveLocation) {
    |folder.parents| == 1 && IsCorpusFolder(folder, location)
  }

  /** Where a chain of folders below the root ends. */
  function End(rootId: string, chain: seq<DriveItem>): string {
    if chain == [] then rootId else chain[|chain| - 1].id
  }

  /** A chain of listed, eligible folders, each the only parent of the next, starting
      directly below the root and not coming back to it. */
  ghost predicate Chain(rootId: string, listed: set<DriveItem>, location: DriveLocation, chain: seq<DriveItem>) {
    chain == [] ||
    var front, last := chain[..|chain| - 1], chain[|chain| - 1];
    && last in listed
    && Eligible(last, location)
    && last.id != rootId
    && last.parents[0] == End(rootId, front)
    && Chain(rootId, listed, location, front)
  }

  /** The path the code gives the end of a chain. */
  function ChainPath(chain: seq<DriveItem>): string {
    if chain == [] then "." else
      ChildPath(ChainPath(chain[..|chain| - 1]), chain[|chain| - 1].name)
  }

  /** The map a walk must produce: its keys are the ends of the chains, and the path of
      each key is the path of its chain. */
  ghost predicate IsFolderMap(
    rootId: string, listed: set<DriveItem>, location: DriveLocation, paths: map<string, string>)
  {
    && (forall chain :: Chain(rootId, listed, location, chain) ==>
          End(rootId, chain) in paths && paths[End(rootId, chain)] == ChainPath(chain))
    && (forall id :: id in paths ==> exists chain :: Chain(rootId, listed, location, chain) && End(rootId, chain) == id)
  }

  /** The same in full, key by key: below the root stands exactly what Drive listed as an
      untrashed folder of this location with one parent, that parent being a key. */
  ghost predicate IsTree(
    rootId: string, listed: set<DriveItem>, location: DriveLocation, paths: map<string, string>)
  {
    && rootId in paths && paths[rootId] == "."
    && (forall id :: id in paths && id != rootId ==> exists f :: f in listed && f.id == id && IsPlaced(f, location, paths))
    && (forall f :: f in listed && |f.parents| == 1 && f.parents[0] in paths && f.mimeType == FOLDER_MIME_TYPE ==>
          location.Contains(f.driveId) && !f.trashed ==> f.id in paths)
  }

  ghost predicate IsPlaced(f: DriveItem, location: DriveLocation, paths: map<string, string>) {
    && |f.parents| == 1 && f.parents[0] in paths && f.mimeType == FOLDER_MIME_TYPE
    && location.Contains(f.driveId) && !f.trashed && f.id in paths
    && paths[f.id] == (if paths[f.parents[0]] == "." then f.name else paths[f.parents[0]] + "/" + f.name)
  }

  lemma MapIsTree(rootId: string, listed: set<DriveItem>, location: DriveLocation, paths: map<string, string>)
    requires IsFolderMap(rootId, listed, location, paths)
    ensures IsTree(rootId, listed, location, paths)
  {
    assert Chain(rootId, listed, location, []) && End(rootId, []) == rootId && ChainPath([]) == ".";
    forall id | id in paths && id != rootId
      ensures exists f :: f in listed && f.id == id && IsPlaced(f, location, paths)
    {
      var chain :| Chain(rootId, listed, location, chain) && End(rootId, chain) == id;
      var front, last := chain[..|chain| - 1], chain[|chain| - 1];
      assert Chain(rootId, listed, location, front);
      assert IsPlaced(last, location, paths);
    }
    forall f | f in listed && |f.parents| == 1 && f.parents[0] in paths && f.mimeType == FOLDER_MIME_TYPE
      && location.Contains(f.driveId) && !f.trashed
      ensures f.id in paths
    {
      var front :| Chain(rootId, listed, location, front) && End(rootId, front) == f.parents[0];
      var chain := front + [f];
      assert chain[..|chain| - 1] == front;
      assert f.id != rootId ==> Chain(rootId, listed, location, chain) && End(rootId, chain) == f.id;
    }
  }

  ghost predicate UniqueIds(listed: set<DriveItem>) {
    forall f, g :: f in listed && g in listed && f.id == g.id ==> f == g
  }

  /** The order in which Drive lists folders cannot change the map. */
  lemma MapIsDetermined(
    rootId: string, listed: set<DriveItem>, location: DriveLocation, paths: map<string, string>, other: map<string, string>)
    requires IsFolderMap(rootId, listed, location, paths) && IsFolderMap(rootId, listed, location, other)
    ensures paths == other
  {
    forall id | id in paths
      ensures id in other && paths[id] == other[id]
    {
      var chain :| Chain(rootId, listed, location, chain) && End(rootId, chain) == id;
    }
    forall id | id in other
      ensures id in paths
    {
      var chain :| Chain(rootId, listed, location, chain) && End(rootId, chain) == id;
    }
  }

  /** With one listed item per ID, a folder has at most one chain. */
  lemma {:induction false} ChainIsUnique(
    rootId: string, listed: set<DriveItem>, location: DriveLocation, c: seq<DriveItem>, d: seq<DriveItem>)
    requires UniqueIds(listed)
    requires Chain(rootId, listed, location, c) && Chain(rootId, listed, location, d)
    requires End(rootId, c) == End(rootId, d)
    ensures c == d
  {
    if c != [] && d != [] {
      var m, n := |c| - 1, |d| - 1;
      ChainIsUnique(rootId, listed, location, c[..m], d[..n]);
      assert c == c[..m] + [c[m]] && d == d[..n] + [d[n]];
    }
  }

  // ---- Paths as slash-joined names.

  function SlashJoin(chain: seq<DriveItem>): string
    requires chain != []
  {
    var last := chain[|chain| - 1].name;
    if |chain| == 1 then last else SlashJoin(chain[..|chain| - 1]) + "/" + last
  }

  /** A path below the root is the slash-join of the names on its chain exactly when the
      chain is a single folder or its top folder is not named ".". */
  lemma {:induction false} PathIsSlashJoin(chain: seq<DriveItem>)
    requires chain != []
    ensures ChainPath(chain) == SlashJoin(chain) <==> |chain| == 1 || chain[0].name != "."
  {
    if |chain| > 1 {
      var front := chain[..|chain| - 1];
      if chain[0].name == "." {
        DottedTopShortens(chain);
      } else {
        PathIsSlashJoin(front);
        DottedPath(front);
      }
    } else {
      assert chain[..0] == [];
    }
  }

  /** Only folders that are all named "." reach the path of the root. */
  lemma {:induction false} DottedPath(chain: seq<DriveItem>)
    ensures ChainPath(chain) == "." <==> forall i :: 0 <= i < |chain| ==> chain[i].name == "."
  {
    if chain != [] {
      var n := |chain| - 1;
      DottedPath(chain[..n]);
      var parent := ChainPath(chain[..n]);
      if parent != "." {
        var path := parent + "/" + chain[n].name;
        assert path[|parent|] == '/';
        assert path != ".";
        var i :| 0 <= i < n && chain[..n][i].name != ".";
        assert chain[i].name != ".";
      }
    }
  }

  lemma {:induction false} DottedTopShortens(chain: seq<DriveItem>)
    requires |chain| > 1 && chain[0].name == "."
    ensures |ChainPath(chain)| < |SlashJoin(chain)|
  {
    var front := chain[..|chain| - 1];
    if |chain| == 2 {
      assert front[..0] == [];
      assert ChainPath(front) == ".";
    } else {
      DottedTopShortens(front);
    }
  }

  // ---- The walk itself.

  /** The eligible folders directly below `parent`, in listing order. */
  function Children(folders: seq<DriveItem>, location: DriveLocation, parent: string): (r: seq<DriveItem>)
    ensures forall f :: f in r <==>
              && f in folders && |f.parents| == 1 && f.parents[0] == parent
              && f.mimeType == FOLDER_MIME_TYPE && location.Contains(f.driveId) && !f.trashed
  {
    if folders == [] then [] else
      var last := folders[|folders| - 1];
      var front := Children(folders[..|folders| - 1], location, parent);
      if Eligible(last, location) && last.parents[0] == parent then front + [last] else front
  }

  function Lookup(index: map<string, seq<DriveItem>>, key: string): seq<DriveItem> {
    if key in index then index[key] else []
  }

  lemma ChildrenSnoc(folders: seq<DriveItem>, i: nat, location: DriveLocation, parent: string)
    requires i < |folders|
    ensures Children(folders[..i + 1], location, parent) ==
            Children(folders[..i], location, parent) +
            (if Eligible(folders[i], location) && folders[i].parents[0] == parent then [folders[i]] else [])
  {
    assert folders[..i + 1][..i] == folders[..i];
  }

  method ChildrenByParent(folders: seq<DriveItem>, location: DriveLocation)
    returns (index: map<string, seq<DriveItem>>)
    ensures forall parent :: Lookup(index, parent) == Children(folders, location, parent)
    ensures forall parent, f :: f in Lookup(index, parent) <==>
              && f in folders && |f.parents| == 1 && f.parents[0] == parent
              && f.mimeType == FOLDER_MIME_TYPE && location.Contains(f.driveId) && !f.trashed
  {
    index := map[];
    for i := 0 to |folders|
      invariant forall parent :: Lookup(index, parent) == Children(folders[..i], location, parent)
    {
      var folder := folders[i];
      ghost var before := index;
      if Eligible(folder, location) {
        index := index[folder.parents[0] := Lookup(index, folder.parents[0]) + [folder]];
      }
      forall parent
        ensures Lookup(index, parent) == Children(folders[..i + 1], location, parent)
      {
        assert Lookup(before, parent) == Children(folders[..i], location, parent);
        ChildrenSnoc(folders, i, location, parent);
      }
    }
    assert folders[..|folders|] == folders;
  }

  function Listed(folders: seq<DriveItem>): set<DriveItem> {
    set f | f in folders
  }

  /** `order` is the keys of `paths`, each inserted, and so enqueued, once. */
  ghost predicate Ordered(paths: map<string, string>, order: seq<string>) {
    && (forall i, j :: 0 <= i < j < |order| ==> order[i] != order[j])
    && (forall id :: id in order <==> id in paths)
  }

  /** Every key found so far is the root or a listed folder, and has a chain behind it. */
  ghost predicate Known(
    rootId: string, folders: seq<DriveItem>, location: DriveLocation,
    paths: map<string, string>, chains: map<string, seq<DriveItem>>)
  {
    && rootId in paths
    && paths.Keys == chains.Keys
    && forall id :: id in paths ==>
         && (id == rootId || id in Ids(folders))
         && Chain(rootId, Listed(folders), location, chains[id])
         && End(rootId, chains[id]) == id
         && paths[id] == ChainPath(chains[id])
  }

  /** The children of the keys in `done` are all keys. */
  ghost predicate Expanded(
    folders: seq<DriveItem>, location: DriveLocation, paths: map<string, string>, done: seq<string>)
  {
    forall id, f :: id in done && f in Children(folders, location, id) ==> f.id in paths
  }

  /** Once every key is expanded, every chain ends in a key. */
  lemma {:induction false} ChainsEndInKeys(
    rootId: string, folders: seq<DriveItem>, location: DriveLocation, paths: map<string, string>, order: seq<string>,
    chain: seq<DriveItem>)
    requires rootId in paths && Ordered(paths, order) && Expanded(folders, location, paths, order)
    requires Chain(rootId, Listed(folders), location, chain)
    ensures End(rootId, chain) in paths
  {
    if chain != [] {
      var front, last := chain[..|chain| - 1], chain[|chain| - 1];
      ChainsEndInKeys(rootId, folders, location, paths, order, front);
      assert last in Children(folders, location, End(rootId, front));
    }
  }

  lemma ExpandedIsFolderMap(
    rootId: string, folders: seq<DriveItem>, location: DriveLocation,
    paths: map<string, string>, chains: map<string, seq<DriveItem>>, order: seq<string>)
    requires DistinctIds(folders)
    requires Known(rootId, folders, location, paths, chains)
    requires Ordered(paths, order) && Expanded(folders, location, paths, order)
    ensures IsFolderMap(rootId, Listed(folders), location, paths)
  {
    var listed := Listed(folders);
    forall chain | Chain(rootId, listed, location, chain)
      ensures End(rootId, chain) in paths && paths[End(rootId, chain)] == ChainPath(chain)
    {
      ChainsEndInKeys(rootId, folders, location, paths, order, chain);
      assert UniqueIds(listed);
      ChainIsUnique(rootId, listed, location, chain, chains[End(rootId, chain)]);
    }
  }

  /** The state of the walk: the keys are `order`, those in `expanded` come first and the
      rest wait in `pending`. */
  ghost predicate Walking(
    rootId: string, folders: seq<DriveItem>, location: DriveLocation, paths: map<string, string>,
    chains: map<string, seq<DriveItem>>, order: seq<string>, expanded: seq<string>, pending: seq<DriveItem>)
  {
    && Known(rootId, folders, location, paths, chains)
    && Ordered(paths, order)
    && order == expanded + Ids(pending)
  }

  lemma DiscoverPath(
    rootId: string, folders: seq<DriveItem>, location: DriveLocation,
    paths: map<string, string>, chains: map<string, seq<DriveItem>>, parent: string, child: DriveItem)
    requires Known(rootId, folders, location, paths, chains)
    requires parent in paths && child in Children(folders, location, parent) && child.id !in paths
    ensures Known(rootId, folders, location,
                  paths[child.id := ChildPath(paths[parent], child.name)],
                  chains[child.id := chains[parent] + [child]])
  {
    ChainOfChild(rootId, folders, location, chains[parent], child);
  }

  lemma ChainOfChild(
    rootId: string, folders: seq<DriveItem>, location: DriveLocation, front: seq<DriveItem>, child: DriveItem)
    requires Chain(rootId, Listed(folders), location, front) && child.id != rootId
    requires child in Children(folders, location, End(rootId, front))
    ensures child.id in Ids(folders)
    ensures Chain(rootId, Listed(folders), location, front + [child]) && End(rootId, front + [child]) == child.id
    ensures ChainPath(front + [child]) == ChildPath(ChainPath(front), child.name)
  {
    var chain := front + [child];
    assert chain[..|chain| - 1] == front;
    var i :| 0 <= i < |folders| && folders[i] == child;
    assert Ids(folders)[i] == child.id;
  }

  /** A new child: a path, a place in the order, a place in the queue. */
  lemma Discover(
    rootId: string, folders: seq<DriveItem>, location: DriveLocation, paths: map<string, string>,
    chains: map<string, seq<DriveItem>>, order: seq<string>, expanded: seq<string>, pending: seq<DriveItem>,
    parent: string, child: DriveItem)
    requires Walking(rootId, folders, location, paths, chains, order, expanded, pending)
    requires parent in paths && child in Children(folders, location, parent) && child.id !in paths
    ensures Walking(rootId, folders, location,
                    paths[child.id := ChildPath(paths[parent], child.name)],
                    chains[child.id := chains[parent] + [child]],
                    order + [child.id], expanded, pending + [child])
  {
    DiscoverPath(rootId, folders, location, paths, chains, parent, child);
    assert Ids(pending + [child]) == Ids(pending) + [child.id];
    assert order + [child.id] == expanded + Ids(pending + [child]);
    OrderedSnoc(paths, order, child.id, ChildPath(paths[parent], child.name));
  }

  lemma OrderedSnoc(paths: map<string, string>, order: seq<string>, id: string, path: string)
    requires Ordered(paths, order) && id !in paths
    ensures Ordered(paths[id := path], order + [id])
  {
    assert id !in order;
  }

  /** The walk's variables: the map, its insertion order, and the queue. */
  datatype Walk = Walk(paths: map<string, string>, order: seq<string>, pending: seq<DriveItem>)

  /** The loop over the children of `parent`, as far as `children` goes. */
  function AddChildren(w: Walk, parent: string, children: seq<DriveItem>): (r: Walk)
    requires parent in w.paths
    ensures parent in r.paths && r.paths[parent] == w.paths[parent]
  {
    if children == [] then w else
      var child := children[|children| - 1];
      var r := AddChildren(w, parent, children[..|children| - 1]);
      if child.id in r.paths then r else
        Walk(r.paths[child.id := ChildPath(r.paths[parent], child.name)], r.order + [child.id], r.pending + [child])
  }

  lemma {:induction false} AddChildrenKeeps(
    rootId: string, folders: seq<DriveItem>, location: DriveLocation, w: Walk,
    chains: map<string, seq<DriveItem>>, expanded: seq<string>, parent: string, children: seq<DriveItem>)
    returns (chains': map<string, seq<DriveItem>>)
    requires Walking(rootId, folders, location, w.paths, chains, w.order, expanded, w.pending)
    requires parent in w.paths
    requires forall f :: f in children ==> f in Children(folders, location, parent)
    ensures var r := AddChildren(w, parent, children);
            && Walking(rootId, folders, location, r.paths, chains', r.order, expanded, r.pending)
            && w.paths.Keys <= r.paths.Keys
            && forall f :: f in children ==> f.id in r.paths
  {
    chains' := chains;
    if children != [] {
      var n := |children| - 1;
      chains' := AddChildrenKeeps(rootId, folders, location, w, chains, expanded, parent, children[..n]);
      var r := AddChildren(w, parent, children[..n]);
      if children[n].id !in r.paths {
        Discover(rootId, folders, location, r.paths, chains', r.order, expanded, r.pending, parent, children[n]);
        chains' := chains'[children[n].id := chains'[parent] + [children[n]]];
      }
    }
  }

  /** The inner loop of the walk. */
  method EnqueueChildren(
    paths0: map<string, string>, order0: seq<string>, pending0: seq<DriveItem>, parent: string, children: seq<DriveItem>)
    returns (paths: map<string, string>, order: seq<string>, pending: seq<DriveItem>)
    requires parent in paths0
    ensures Walk(paths, order, pending) == AddChildren(Walk(paths0, order0, pending0), parent, children)
  {
    paths, order, pending := paths0, order0, pending0;
    var parentPath := paths[parent];
    for k := 0 to |children|
      invariant Walk(paths, order, pending) == AddChildren(Walk(paths0, order0, pending0), parent, children[..k])
    {
      assert children[..k + 1][..k] == children[..k];
      var child := children[k];
      if child.id in paths {
        continue;
      }
      paths := paths[child.id := ChildPath(parentPath, child.name)];
      order := order + [child.id];
      pending := pending + [child];
    }
    assert children[..|children|] == children;
  }

  /** The folder map and the order its keys were inserted in. */
  method EnumerateFolderPaths(root: DriveItem, folders: seq<DriveItem>, location: DriveLocation)
    returns (paths: map<string, string>, order: seq<string>)
    requires DistinctIds(folders)
    ensures IsFolderMap(root.id, Listed(folders), location, paths)
    ensures IsTree(root.id, Listed(folders), location, paths)
    ensures Ordered(paths, order)
  {
    var childrenByParent := ChildrenByParent(folders, location);
    paths := map[root.id := "."];
    order := [root.id];
    var pending := [root];
    ghost var chains: map<string, seq<DriveItem>> := map[root.id := []];
    ghost var expanded: seq<string> := [];
    while pending != []
      invariant Walking(root.id, folders, location, paths, chains, order, expanded, pending)
      invariant Expanded(folders, location, paths, expanded)
      decreases |folders| + 1 - |expanded|
    {
      KeysAreBounded(root.id, folders, location, paths, chains, order);
      var folder := pending[0];
      pending := pending[1..];
      assert order == expanded + [folder.id] + Ids(pending);
      var children := Lookup(childrenByParent, folder.id);
      ghost var w := Walk(paths, order, pending);
      chains := AddChildrenKeeps(root.id, folders, location, w, chains, expanded + [folder.id], folder.id, children);
      paths, order, pending := EnqueueChildren(paths, order, pending, folder.id, children);
      RoundExpands(folders, location, w.paths, paths, expanded, folder.id);
      expanded := expanded + [folder.id];
    }
    assert order == expanded;
    ExpandedIsFolderMap(root.id, folders, location, paths, chains, order);
    MapIsTree(root.id, Listed(folders), location, paths);
  }

  lemma RoundExpands(
    folders: seq<DriveItem>, location: DriveLocation, paths0: map<string, string>, paths: map<string, string>,
    expanded: seq<string>, parent: string)
    requires Expanded(folders, location, paths0, expanded) && paths0.Keys <= paths.Keys
    requires forall f :: f in Children(folders, location, parent) ==> f.id in paths
    ensures Expanded(folders, location, paths, expanded + [parent])
  {
    forall id, f | id in expanded + [parent] && f in Children(folders, location, id)
      ensures f.id in paths
    {
      assert id in expanded ==> f.id in paths0;
    }
  }

  lemma KeysAreBounded(
    rootId: string, folders: seq<DriveItem>, location: DriveLocation,
    paths: map<string, string>, chains: map<string, seq<DriveItem>>, order: seq<string>)
    requires Known(rootId, folders, location, paths, chains) && Ordered(paths, order)
    ensures |order| <= |folders| + 1
  {
    FirstSeen.FitsIn(order, [rootId] + Ids(folders));
  }
}
