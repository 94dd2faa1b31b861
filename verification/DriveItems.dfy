/** Drive metadata, the measured location, and the one-item rules of the boundary. */
module DriveItems {
  import opened Outcomes

  const FOLDER_MIME_TYPE := "application/vnd.google-apps.folder"
  const SHORTCUT_MIME_TYPE := "application/vnd.google-apps.shortcut"

  datatype DriveItem = DriveItem(
    id: string,
    name: string,
    mimeType: string,
    driveId: Option<string>,
    parents: seq<string>,
    trashed: bool,
    canDownload: bool,
    modifiedTime: Option<string>,
    size: Option<int>
  )

  /** Authorized metadata, as a tool returns it. */
  datatype ScopedItem = ScopedItem(
    id: string,
    name: string,
    mimeType: string,
    relativePath: string,
    modifiedTime: Option<string>,
    size: Option<int>
  )

  function ToScopedItem(item: DriveItem, relativePath: string): ScopedItem {
    ScopedItem(item.id, item.name, item.mimeType, relativePath, item.modifiedTime, item.size)
  }

  /** Where one corpus lives, measured from the root folder's own metadata. */
  datatype DriveLocation = MyDrive | SharedDrive(sharedDriveId: string) {
    static function Of(driveId: Option<string>): DriveLocation {
      match driveId
      case None => MyDrive
      case Some(id) => SharedDrive(id)
    }

    predicate Contains(driveId: Option<string>) {
      match this
      case MyDrive => driveId.None?
      case SharedDrive(id) => driveId == Some(id)
    }
  }

  /** The measured location holds the item it was measured from, and exactly the items
      that carry the same Drive ID. */
  lemma LocationIsTheDriveId(measured: Option<string>, other: Option<string>)
    ensures DriveLocation.Of(measured).Contains(other) <==> other == measured
  {
  }

  predicate IsFolder(item: DriveItem) {
    item.mimeType == FOLDER_MIME_TYPE
  }

  /** What `list_folders` asks Drive for. */
  predicate IsListedFolder(item: DriveItem) {
    IsFolder(item) && !item.trashed
  }

  predicate IsCorpusFolder(item: DriveItem, location: DriveLocation) {
    IsFolder(item) && location.Contains(item.driveId) && !item.trashed
  }

  predicate IsDirectSafeChild(item: DriveItem, folderId: string, location: DriveLocation) {
    && location.Contains(item.driveId)
    && item.parents == [folderId]
    && !item.trashed
    && item.mimeType != SHORTCUT_MIME_TYPE
  }

  predicate IsSafeSearchResult(item: DriveItem, paths: map<string, string>, location: DriveLocation) {
    && location.Contains(item.driveId)
    && |item.parents| == 1
    && item.parents[0] in paths
    && !item.trashed
    && !IsFolder(item)
    && item.mimeType != SHORTCUT_MIME_TYPE
  }

  /** The checks on live metadata, in the order the code makes them. */
  function LiveRefusal(item: DriveItem, location: DriveLocation): Option<Refusal> {
    if !location.Contains(item.driveId) then Some(WrongLocation)
    else if item.trashed then Some(Trashed)
    else if item.mimeType == SHORTCUT_MIME_TYPE then Some(Shortcut)
    else None
  }

  /** The root re-read: `answer` is what Drive returned for `rootId`. */
  function RootRefusal(answer: DriveItem, rootId: string, location: DriveLocation): Option<Refusal> {
    if answer.id != rootId then Some(RootMismatch)
    else if LiveRefusal(answer, location).Some? then LiveRefusal(answer, location)
    else if !IsFolder(answer) then Some(RootNotAFolder)
    else None
  }

  /** The path of an entry named `name` below a folder whose own path is `parentPath`. */
  function ChildPath(parentPath: string, name: string): string {
    if parentPath == "." then name else parentPath + "/" + name
  }

  function Ids(items: seq<DriveItem>): (r: seq<string>)
    ensures |r| == |items|
  {
    seq(|items|, i requires 0 <= i < |items| => items[i].id)
  }

  ghost predicate DistinctIds(items: seq<DriveItem>) {
    forall i, j :: 0 <= i < j < |items| ==> items[i].id != items[j].id
  }
}
