/** What authorization decides, as a function of what was read, and what it means for a
    Drive that stands still. */
module Verdicts {
  import opened Outcomes
  import opened DriveItems
  import opened FolderWalk

  /** What Drive answers at one moment, by ID. */
  type Drive = map<string, DriveItem>

  datatype Outcome = Allow(item: DriveItem, path: string) | Refuse(reason: Refusal)

  function RootOutcome(answer: DriveItem, rootId: string, location: DriveLocation): Outcome {
    match RootRefusal(answer, rootId, location)
    case Some(reason) => Refuse(reason)
    case None => Allow(answer, ".")
  }

  /** What the live read alone decides. */
  function LiveOutcome(item: DriveItem, location: DriveLocation): Option<Outcome> {
    if LiveRefusal(item, location).Some? then Some(Refuse(LiveRefusal(item, location).value))
    else if |item.parents| != 1 then Some(Refuse(AncestryUnprovable))
    else None
  }

  /** Every refusal on live metadata, exactly when it is given: the first of the four rules
      that is broken. None is given exactly when all four are kept. */
  lemma LiveRefusalsExactly(item: DriveItem, location: DriveLocation)
    ensures var o, here := LiveOutcome(item, location), location.Contains(item.driveId);
            && (o == Some(Refuse(WrongLocation)) <==> !here)
            && (o == Some(Refuse(Trashed)) <==> here && item.trashed)
            && (o == Some(Refuse(Shortcut)) <==>
                  here && !item.trashed && item.mimeType == "application/vnd.google-apps.shortcut")
            && (o == Some(Refuse(AncestryUnprovable)) <==>
                  && here && !item.trashed && item.mimeType != "application/vnd.google-apps.shortcut"
                  && |item.parents| != 1)
            && (o == None <==>
                  && here && !item.trashed && item.mimeType != "application/vnd.google-apps.shortcut"
                  && |item.parents| == 1)
  {
  }

  /** Every refusal of the root, likewise; it is allowed, with the path ".", exactly when it
      answers to its ID and is an untrashed folder of the location. */
  lemma RootRefusalsExactly(root: DriveItem, rootId: string, location: DriveLocation)
    ensures var o, here := RootOutcome(root, rootId, location), location.Contains(root.driveId);
            && (o == Refuse(RootMismatch) <==> root.id != rootId)
            && (o == Refuse(WrongLocation) <==> root.id == rootId && !here)
            && (o == Refuse(Trashed) <==> root.id == rootId && here && root.trashed)
            && (o == Refuse(Shortcut) <==>
                  root.id == rootId && here && !root.trashed && root.mimeType == "application/vnd.google-apps.shortcut")
            && (o == Refuse(RootNotAFolder) <==>
                  && root.id == rootId && here && !root.trashed
                  && root.mimeType != "application/vnd.google-apps.shortcut"
                  && root.mimeType != "application/vnd.google-apps.folder")
            && (o == Allow(root, ".") <==>
                  root.id == rootId && here && !root.trashed && root.mimeType == "application/vnd.google-apps.folder")
  {
    assert "application/vnd.google-apps.folder"[28] == 'f' && "application/vnd.google-apps.shortcut"[28] == 's';
  }

  /** What the map decides for an item the live read let through. */
  function MapOutcome(item: DriveItem, paths: map<string, string>): Outcome
    requires |item.parents| == 1
  {
    if item.parents[0] in paths then Allow(item, ChildPath(paths[item.parents[0]], item.name))
    else Refuse(OutsideSubtree)
  }

  /** Every answer carries the ID it was asked for. */
  ghost predicate KeyedById(drive: Drive) {
    forall id :: id in drive ==> drive[id].id == id
  }

  function ListedFolders(drive: Drive): set<DriveItem> {
    set id | id in drive && IsListedFolder(drive[id]) :: drive[id]
  }

  /** A chain of the folders now in Drive leads from the root to `parent`. */
  ghost predicate Reaches(rootId: string, location: DriveLocation, drive: Drive, chain: seq<DriveItem>, parent: string) {
    Chain(rootId, ListedFolders(drive), location, chain) && End(rootId, chain) == parent
  }

  /** What authorization means for an unchanging Drive: no map, no cache, no clock in it. */
  ghost predicate IsVerdict(rootId: string, location: DriveLocation, drive: Drive, id: string, outcome: Outcome) {
    && id in drive
    && var item := drive[id];
    if id == rootId then outcome == RootOutcome(item, rootId, location)
    else if LiveOutcome(item, location).Some? then outcome == LiveOutcome(item, location).value
    else match outcome
      case Allow(it, path) =>
        it == item && exists chain :: Reaches(rootId, location, drive, chain, item.parents[0]) && path == ChildPath(ChainPath(chain), item.name)
      case Refuse(reason) =>
        reason == OutsideSubtree && forall chain :: !Reaches(rootId, location, drive, chain, item.parents[0])
  }

  lemma VerdictIsUnique(rootId: string, location: DriveLocation, drive: Drive, id: string, o: Outcome, o': Outcome)
    requires KeyedById(drive)
    requires IsVerdict(rootId, location, drive, id, o) && IsVerdict(rootId, location, drive, id, o')
    ensures o == o'
  {
    var item := drive[id];
    if id != rootId && LiveOutcome(item, location).None? && o.Allow? && o'.Allow? {
      var c :| Reaches(rootId, location, drive, c, item.parents[0]) && o.path == ChildPath(ChainPath(c), item.name);
      var d :| Reaches(rootId, location, drive, d, item.parents[0]) && o'.path == ChildPath(ChainPath(d), item.name);
      ChainIsUnique(rootId, ListedFolders(drive), location, c, d);
    }
  }

  /** A map of the folders now in Drive decides as the verdict does. */
  lemma MapGivesVerdict(rootId: string, location: DriveLocation, drive: Drive, id: string, paths: map<string, string>)
    requires id in drive && id != rootId && LiveOutcome(drive[id], location).None?
    requires IsFolderMap(rootId, ListedFolders(drive), location, paths)
    ensures IsVerdict(rootId, location, drive, id, MapOutcome(drive[id], paths))
  {
    var parent := drive[id].parents[0];
    if parent in paths {
      var chain :| Chain(rootId, ListedFolders(drive), location, chain) && End(rootId, chain) == parent;
      assert Reaches(rootId, location, drive, chain, parent);
    }
  }

  /** A folder that is allowed, and its safe children, share one chain; only the root, should
      it be listed below a folder, keeps its own path. */
  lemma ChildVerdict(
    rootId: string, location: DriveLocation, drive: Drive, folderId: string, folderPath: string, childId: string)
    requires KeyedById(drive) && folderId in drive && childId in drive
    requires IsVerdict(rootId, location, drive, folderId, Allow(drive[folderId], folderPath))
    requires IsFolder(drive[folderId]) && IsDirectSafeChild(drive[childId], folderId, location)
    ensures var child := drive[childId];
            IsVerdict(rootId, location, drive, childId,
                      if childId == rootId then RootOutcome(child, rootId, location)
                      else Allow(child, ChildPath(folderPath, child.name)))
  {
    var folder := drive[folderId];
    if folderId == rootId {
      assert Reaches(rootId, location, drive, [], rootId);
      assert ChainPath([]) == ".";
    } else {
      var front :| Reaches(rootId, location, drive, front, folder.parents[0])
                   && folderPath == ChildPath(ChainPath(front), folder.name);
      var chain := front + [folder];
      assert chain[..|chain| - 1] == front;
      assert Reaches(rootId, location, drive, chain, folderId);
      assert ChainPath(chain) == folderPath;
    }
  }

  /** The path `list_folder` gives an entry. */
  function ListedPath(rootId: string, folderId: string, folderPath: string, name: string): string {
    if folderId == rootId then name else folderPath + "/" + name
  }

  /** The caller's condition: under the root always, elsewhere when the folder's own path is
      not "."; and for the root listed as a child, when it is its own parent and named ".". */
  predicate PathAgrees(rootId: string, folderId: string, folderPath: string, childId: string, name: string) {
    if childId == rootId then folderId == rootId && name == "." else folderId == rootId || folderPath != "."
  }

  /** `list_folder` and `get_metadata` agree on the path of a child exactly then. */
  lemma ListedPathAgrees(
    rootId: string, location: DriveLocation, drive: Drive, folderId: string, folderPath: string, childId: string)
    requires KeyedById(drive) && folderId in drive && childId in drive
    requires IsVerdict(rootId, location, drive, folderId, Allow(drive[folderId], folderPath))
    requires IsFolder(drive[folderId]) && IsDirectSafeChild(drive[childId], folderId, location)
    ensures var name := drive[childId].name;
            IsVerdict(rootId, location, drive, childId, Allow(drive[childId], ListedPath(rootId, folderId, folderPath, name)))
            <==> PathAgrees(rootId, folderId, folderPath, childId, name)
  {
    var child := drive[childId];
    var listed := Allow(child, ListedPath(rootId, folderId, folderPath, child.name));
    if childId == rootId {
      assert folderId != rootId ==> listed.path[|folderPath|] == '/';
    } else {
      ChildVerdict(rootId, location, drive, folderId, folderPath, childId);
      var verdict := Allow(child, ChildPath(folderPath, child.name));
      if IsVerdict(rootId, location, drive, childId, listed) {
        VerdictIsUnique(rootId, location, drive, childId, listed, verdict);
        assert folderId == rootId || |listed.path| == |folderPath| + 1 + |child.name|;
      }
    }
  }
}
