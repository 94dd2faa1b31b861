/** `ScopedDrive` as one task sees it: the fields, the methods, and the gateway and clock
    they use. What concurrent tasks can do to the folder map is in `MapProtocol`. */
module Scope {
  import opened Outcomes
  import opened DriveItems
  import opened FolderWalk
  import opened Verdicts
  import Listing
  import Merge
  import Query
  import Search

  /** A monotone clock. */
  class Clock {
    var now: real

    constructor ()
    {
      now := 0.0;
    }

    method Read() returns (t: real)
      modifies this
      ensures t == now >= old(now)
    {
      var elapsed: real := *;
      if elapsed > 0.0 {
        now := now + elapsed;
      }
      t := now;
    }
  }

  type Content = seq<bv8>

  datatype Fetch = Download(id: string) | Export(id: string, mimeType: string)

  /** Drive behind its gateway: what `get_item` sees, how it answers list queries, and the
      bytes of an item under an export type. `fetches` records every byte fetched. */
  class Gateway {
    var items: Drive
    var lists: Listing.Drive
    var content: (DriveItem, Option<string>) -> Content
    ghost var fetches: seq<Fetch>

    constructor (items: Drive, lists: Listing.Drive, content: (DriveItem, Option<string>) -> Content)
      ensures this.items == items && this.lists == lists && this.content == content && fetches == []
    {
      this.items, this.lists, this.content, fetches := items, lists, content, [];
    }

    method GetItem(id: string) returns (r: Result<DriveItem>)
      ensures r == if id in items then Ok(items[id]) else Err(DriveNotFound)
    {
      r := if id in items then Ok(items[id]) else Err(DriveNotFound);
    }

    method ListWhole(query: string, orderBy: Option<string>) returns (r: Result<seq<DriveItem>>)
      ensures r.Ok? ==> IsListing(lists, query, orderBy, r.value)
      ensures r.Ok? <==> Finishes(lists, query, orderBy)
      ensures var endless := Listing.Endless(lists, Listing.FirstRequest(query, orderBy, None), 20);
              r.Err? ==> r.error == (if endless then EnumerationBudgetExceeded else EnumerationIncomplete)
    {
      var page := Listing.ListItems(lists, query, Listing.FOLDER_PAGE_BUDGET, orderBy, None);
      r := Listing.RequireComplete(page);
      ghost var first, budget := Listing.FirstRequest(query, orderBy, None), Listing.FOLDER_PAGE_BUDGET;
      ghost var n: nat :| Listing.Answers(lists, first, budget, None, page, n);
      Listing.BudgetExceededExactly(lists, first, budget, page, n);
      if r.Ok? {
        Listing.CompleteIsWhole(lists, first, budget, page, n);
        assert IsWhole(lists, first, n);
      } else {
        forall m: nat | m <= budget && IsWhole(lists, first, m)
          ensures false
        {
          Listing.WholeIsComplete(lists, first, budget, page, n, m, Listing.Distinct(Listing.Gathered(lists, first, m)));
        }
      }
    }

    method SearchItems(parentIds: seq<string>, keywords: string, limit: nat)
      returns (r: Result<Listing.SearchPage>, ghost fetched: nat)
      ensures r.Ok? <==> limit >= 1 && 1 <= |parentIds| <= 400
      ensures r.Err? ==> r.error == InvalidArgument
      ensures r.Ok? ==>
                && Query.SearchQuery(parentIds, keywords).Ok?
                && Listing.Answers(
                     lists, Listing.FirstRequest(Query.SearchQuery(parentIds, keywords).value, None, Some(limit)),
                     5, Some(limit), r.value, fetched)
    {
      fetched := 0;
      if limit < 1 {
        return Err(InvalidArgument), fetched;
      }
      var query := Query.SearchQuery(parentIds, keywords);
      if query.Err? {
        return Err(query.error), fetched;
      }
      var page := Listing.ListItems(lists, query.value, Listing.SEARCH_PAGE_BUDGET, None, Some(limit));
      fetched :| Listing.Answers(
        lists, Listing.FirstRequest(query.value, None, Some(limit)), Listing.SEARCH_PAGE_BUDGET, Some(limit), page, fetched);
      r := Ok(page);
    }

    method DownloadItem(id: string) returns (r: Result<Content>)
      modifies this`fetches
      ensures fetches == old(fetches) + [Download(id)]
      ensures r == if id in items then Ok(content(items[id], None)) else Err(DriveNotFound)
    {
      fetches := fetches + [Download(id)];
      r := if id in items then Ok(content(items[id], None)) else Err(DriveNotFound);
    }

    method ExportItem(id: string, mimeType: string) returns (r: Result<Content>)
      modifies this`fetches
      ensures fetches == old(fetches) + [Export(id, mimeType)]
      ensures r == if id in items then Ok(content(items[id], Some(mimeType))) else Err(DriveNotFound)
    {
      fetches := fetches + [Export(id, mimeType)];
      r := if id in items then Ok(content(items[id], Some(mimeType))) else Err(DriveNotFound);
    }
  }

  /** `xs` is everything Drive lists for the query, complete and deduplicated. */
  ghost predicate IsListing(lists: Listing.Drive, query: string, orderBy: Option<string>, xs: seq<DriveItem>) {
    exists n :: Listing.WholeListing(lists, Listing.FirstRequest(query, orderBy, None), n, xs)
  }

  /** Drive's pages for the query end, unflagged, within the budget. */
  ghost predicate Finishes(lists: Listing.Drive, query: string, orderBy: Option<string>) {
    exists n: nat :: n <= 20 && IsWhole(lists, Listing.FirstRequest(query, orderBy, None), n)
  }

  ghost predicate IsWhole(lists: Listing.Drive, first: Listing.ListRequest, n: nat) {
    Listing.WholeListing(lists, first, n, Listing.Distinct(Listing.Gathered(lists, first, n)))
  }

  /** List queries answer with the metadata `get_item` gives, and the folder query with
      every folder there is. */
  ghost predicate Honest(items: Drive, lists: Listing.Drive) {
    && KeyedById(items)
    && (forall k, request, f :: f in lists(k, request).files ==> f.id in items && items[f.id] == f)
    && (forall xs :: IsListing(lists, Query.FoldersQuery(), None, xs) ==> Listed(xs) == ListedFolders(items))
  }

  lemma {:induction false} GatheredAreItems(items: Drive, lists: Listing.Drive, first: Listing.ListRequest, n: nat)
    requires Honest(items, lists)
    ensures forall f :: f in Listing.Gathered(lists, first, n) ==> f.id in items && items[f.id] == f
  {
    if n > 0 {
      GatheredAreItems(items, lists, first, n - 1);
    }
  }

  lemma DistinctAreItems(items: Drive, lists: Listing.Drive, first: Listing.ListRequest, n: nat)
    requires Honest(items, lists)
    ensures forall f :: f in Listing.Distinct(Listing.Gathered(lists, first, n)) ==> f.id in items && items[f.id] == f
  {
    GatheredAreItems(items, lists, first, n);
    Listing.DistinctIsFrom(Listing.Gathered(lists, first, n));
  }

  lemma ListingsAreItems(items: Drive, lists: Listing.Drive, query: string, orderBy: Option<string>, xs: seq<DriveItem>)
    requires Honest(items, lists) && IsListing(lists, query, orderBy, xs)
    ensures forall f :: f in xs ==> f.id in items && items[f.id] == f
  {
    var first := Listing.FirstRequest(query, orderBy, None);
    var n :| Listing.WholeListing(lists, first, n, xs);
    DistinctAreItems(items, lists, first, n);
  }

  lemma ListingsAreDistinct(lists: Listing.Drive, query: string, orderBy: Option<string>, xs: seq<DriveItem>)
    requires IsListing(lists, query, orderBy, xs)
    ensures DistinctIds(xs)
  {
    var first := Listing.FirstRequest(query, orderBy, None);
    var n :| Listing.WholeListing(lists, first, n, xs);
    Listing.KeptIds(Listing.Gathered(lists, first, n));
  }

  /** The folder map as a dictionary: the paths, and the order of its keys. */
  datatype FolderMap = FolderMap(paths: map<string, string>, order: seq<string>)

  datatype SearchResult = SearchResult(items: seq<ScopedItem>, truncated: bool, incomplete: bool)

  function Scoped(hits: seq<Merge.Hit>): (r: seq<ScopedItem>)
    ensures |r| == |hits|
    ensures forall k :: 0 <= k < |hits| ==> r[k] == ToScopedItem(hits[k].item, hits[k].relativePath)
  {
    seq(|hits|, k requires 0 <= k < |hits| => ToScopedItem(hits[k].item, hits[k].relativePath))
  }

  /** What the pages of one search come to: the first `limit` items of their rank merge. */
  function ResultOf(
    pages: seq<Listing.SearchPage>, paths: map<string, string>, location: DriveLocation, limit: nat): SearchResult
  {
    SearchResult(
      Scoped(Merge.UpTo(Merge.Merged(Search.Batches(Search.ItemsOf(pages), paths, location)), limit)),
      Search.Truncated(pages, paths, location, limit),
      Search.Incomplete(pages))
  }

  /** That result in full: so many items as there are hits, up to the limit; item k is hit k,
      described by its own metadata; `truncated` and `incomplete` say what was cut and what
      was not searched. */
  lemma ResultExactly(
    pages: seq<Listing.SearchPage>, paths: map<string, string>, location: DriveLocation, limit: nat)
    ensures var r := ResultOf(pages, paths, location, limit);
            var hits := Merge.Merged(Search.Batches(Search.ItemsOf(pages), paths, location));
            && |r.items| <= |hits| && |r.items| <= limit && (|r.items| == |hits| || |r.items| == limit)
            && (forall k :: 0 <= k < |r.items| ==>
                  Describes(r.items[k], hits[k].item) && r.items[k].relativePath == hits[k].relativePath)
            && (r.truncated <==> |hits| > |r.items| || exists b :: 0 <= b < |pages| && pages[b].hasMore)
            && (r.incomplete <==> exists b :: 0 <= b < |pages| && pages[b].incomplete)
  {
  }

  /** The fields a caller is given are the item's own. */
  ghost predicate Describes(s: ScopedItem, item: DriveItem) {
    && s.id == item.id && s.name == item.name && s.mimeType == item.mimeType
    && s.modifiedTime == item.modifiedTime && s.size == item.size
  }

  /** A proof of membership. Its identity is the object itself, as in the code. */
  class AuthorizedItem {
    const item: DriveItem
    const relativePath: string

    constructor (item: DriveItem, relativePath: string)
      ensures this.item == item && this.relativePath == relativePath
    {
      this.item, this.relativePath := item, relativePath;
    }
  }

  /** `__post_init__`: the root alias and a negative window are refused. */
  function Configuration(rootFolderId: string, ttl: real): Option<Error> {
    if rootFolderId == "root" || ttl < 0.0 then Some(InvalidArgument) else None
  }

  /** The ranked batches and the sticky flags of the pages answered. */
  ghost predicate Collected(
    pages: seq<Listing.SearchPage>, paths: map<string, string>, location: DriveLocation,
    rankedBatches: seq<Merge.Batch>, incomplete: bool, hasMore: bool)
  {
    && rankedBatches == Search.Batches(Search.ItemsOf(pages), paths, location)
    && incomplete == Search.Incomplete(pages) && hasMore == Search.HasMore(pages)
  }

  /** What asking the scope can fail with. */
  predicate IsScopeError(e: Error) {
    e.ScopeViolation? || e.DriveNotFound? || e.EnumerationBudgetExceeded? || e.EnumerationIncomplete? || e.NotInitialized?
  }

  /** An outcome as `_authorize` returns or raises it. */
  function Answer(o: Outcome): Result<(DriveItem, string)> {
    match o
    case Allow(item, path) => Ok((item, path))
    case Refuse(reason) => Err(ScopeViolation(reason))
  }

  /** A configuration is refused exactly for the alias of a whole Drive, and for a window
      below zero. */
  lemma ConfigurationExactly(rootFolderId: string, ttl: real)
    ensures Configuration(rootFolderId, ttl) ==
            if rootFolderId != "root" && ttl >= 0.0 then None else Some(InvalidArgument)
  {
  }

  class ScopedDrive {
    const gateway: Gateway
    const clock: Clock
    const rootFolderId: string
    const ttl: real
    var location: Option<DriveLocation>
    var folderPaths: Option<FolderMap>
    var folderPathsExpiry: real
    var folderMapGeneration: nat
    var issued: set<AuthorizedItem>

    /** The fields belong together: with a zero window nothing is stored, a stored map is a
        dictionary, and every issued proof is for a readable document. */
    ghost predicate Valid()
      reads this
    {
      && ttl >= 0.0
      && (ttl == 0.0 ==> folderPaths.None?)
      && (folderPaths.Some? ==> location.Some? && Ordered(folderPaths.value.paths, folderPaths.value.order))
      && forall proof :: proof in issued ==> IsReadable(proof.item)
    }

    /** The stored map, if any, is the map of the Drive there is now. */
    ghost predicate Current()
      reads this`location, this`folderPaths, gateway`items, gateway`lists
    {
      && Honest(gateway.items, gateway.lists)
      && location.Some?
      && (folderPaths.Some? ==> IsCurrent(folderPaths.value.paths))
    }

    ghost predicate IsCurrent(paths: map<string, string>)
      requires location.Some?
      reads this`location, gateway`items
    {
      && IsFolderMap(rootFolderId, ListedFolders(gateway.items), location.value, paths)
      && RootIsValid()
    }

    /** A re-read of the root succeeds: it answers to its ID, and is an untrashed folder of the
        measured location. */
    ghost predicate RootIsValid()
      reads this`location, gateway`items
    {
      && location.Some? && rootFolderId in gateway.items
      && var root := gateway.items[rootFolderId];
      && root.id == rootFolderId && location.value.Contains(root.driveId) && !root.trashed
      && root.mimeType == FOLDER_MIME_TYPE
    }

    /** A refusal that is about the root. */
    ghost predicate IsRootRefusal(e: Error)
      reads this`location, gateway`items
    {
      && e.ScopeViolation? && location.Some? && rootFolderId in gateway.items
      && RootRefusal(gateway.items[rootFolderId], rootFolderId, location.value) == Some(e.reason)
    }

    /** An enumeration succeeds. */
    ghost predicate CanEnumerate()
      reads this`location, gateway`items, gateway`lists
    {
      RootIsValid() && Finishes(gateway.lists, Query.FoldersQuery(), None)
    }

    ghost predicate IsAllowed(itemId: string, path: string)
      requires location.Some? && itemId in gateway.items
      reads this`location, gateway`items
    {
      IsVerdict(rootFolderId, location.value, gateway.items, itemId, Allow(gateway.items[itemId], path))
    }

    ghost predicate IsInside(itemId: string)
      requires location.Some? && itemId in gateway.items
      reads this`location, gateway`items
    {
      exists path :: IsAllowed(itemId, path)
    }

    /** `r` is the verdict on the item. */
    ghost predicate IsDecision(itemId: string, r: Result<(DriveItem, string)>)
      requires location.Some?
      reads this`location, gateway`items
    {
      exists o :: IsVerdict(rootFolderId, location.value, gateway.items, itemId, o) && r == Answer(o)
    }

    constructor (gateway: Gateway, clock: Clock, rootFolderId: string, ttl: real)
      requires Configuration(rootFolderId, ttl).None?
      ensures Valid() && this.gateway == gateway && this.clock == clock
      ensures this.rootFolderId == rootFolderId && this.ttl == ttl
      ensures location.None? && folderPaths.None? && issued == {} && folderMapGeneration == 0
    {
      this.gateway, this.clock, this.rootFolderId, this.ttl := gateway, clock, rootFolderId, ttl;
      location, folderPaths, folderPathsExpiry, folderMapGeneration, issued := None, None, 0.0, 0, {};
    }

    /** Validates the root and measures the location from it: the measured location is the
        one that contains the root. */
    method Initialize() returns (r: Result<DriveItem>)
      requires Valid()
      modifies this`location
      ensures Valid()
      ensures r.Ok? <==>
              && rootFolderId in gateway.items
              && var root := gateway.items[rootFolderId];
              root.id == rootFolderId && IsFolder(root) && !root.trashed && root.driveId != Some("")
      ensures r.Ok? ==>
                && r.value == gateway.items[rootFolderId]
                && location.Some? && RootIsValid()
                && forall driveId :: location.value.Contains(driveId) <==> driveId == r.value.driveId
      ensures r.Err? ==> location == old(location)
    {
      r := gateway.GetItem(rootFolderId);
      if r.Err? {
        return r;
      }
      var root := r.value;
      if root.id != rootFolderId {
        return Err(ScopeViolation(RootMismatch));
      }
      if !IsFolder(root) {
        return Err(ScopeViolation(RootNotAFolder));
      }
      if root.trashed {
        return Err(ScopeViolation(Trashed));
      }
      if root.driveId == Some("") {
        return Err(InvalidArgument);  // a Shared Drive location requires an ID
      }
      location := Some(DriveLocation.Of(root.driveId));
      forall driveId
        ensures location.value.Contains(driveId) <==> driveId == root.driveId
      {
        LocationIsTheDriveId(root.driveId, driveId);
      }
      assert FOLDER_MIME_TYPE != SHORTCUT_MIME_TYPE;
    }

    /** Re-reads the root. */
    method ValidatedRoot() returns (r: Result<DriveItem>)
      ensures r.Ok? <==> RootIsValid()
      ensures r.Ok? ==> r.value == gateway.items[rootFolderId]
      ensures rootFolderId !in gateway.items ==> r == Err(DriveNotFound)
      ensures r.Err? && rootFolderId in gateway.items ==>
                var root := gateway.items[rootFolderId];
                if location.Some? then r.error.ScopeViolation? && IsRootRefusal(r.error)
                else r.error == if root.id != rootFolderId then ScopeViolation(RootMismatch) else NotInitialized
    {
      r := gateway.GetItem(rootFolderId);
      if r.Err? {
        return r;
      }
      var root := r.value;
      if root.id != rootFolderId {
        return Err(ScopeViolation(RootMismatch));
      }
      if location.None? {
        return Err(NotInitialized);
      }
      var refusal := LiveRefusal(root, location.value);
      if refusal.Some? {
        return Err(ScopeViolation(refusal.value));
      }
      if !IsFolder(root) {
        return Err(ScopeViolation(RootNotAFolder));
      }
    }

    method CachedFolderMap() returns (cached: Option<FolderMap>)
      modifies clock
      ensures clock.now >= old(clock.now)
      ensures cached.Some? ==> cached == folderPaths && clock.now < folderPathsExpiry
      ensures cached.None? ==> folderPaths.None? || clock.now >= folderPathsExpiry
    {
      cached := None;
      if folderPaths.Some? {
        var t := clock.Read();
        if t < folderPathsExpiry {
          cached := folderPaths;
        }
      }
    }

    /** The map of a whole folder listing, made after a re-read of the root. */
    ghost predicate FreshlyListed(paths: map<string, string>)
      reads this`location, gateway`items, gateway`lists
    {
      RootIsValid() && exists folders ::
        && IsListing(gateway.lists, Query.FoldersQuery(), None, folders)
        && IsFolderMap(rootFolderId, Listed(folders), location.value, paths)
    }

    /** The map of everything the identity can see, from one bulk listing. */
    method EnumerateFolderPaths() returns (r: Result<FolderMap>)
      requires Valid()
      ensures r.Ok? <==> CanEnumerate()
      ensures r.Err? ==> IsScopeError(r.error)
      ensures r.Ok? ==> location.Some? && Ordered(r.value.paths, r.value.order)
      ensures r.Ok? && Current() ==> IsCurrent(r.value.paths)
      ensures r.Ok? ==> FreshlyListed(r.value.paths)
      ensures r.Err? && r.error.ScopeViolation? && location.Some? ==> IsRootRefusal(r.error)
    {
      var root := ValidatedRoot();
      if root.Err? {
        return Err(root.error);
      }
      var folders := gateway.ListWhole(Query.FoldersQuery(), None);
      if folders.Err? {
        return Err(folders.error);
      }
      ListingsAreDistinct(gateway.lists, Query.FoldersQuery(), None, folders.value);
      var paths, order := FolderWalk.EnumerateFolderPaths(root.value, folders.value, location.value);
      r := Ok(FolderMap(paths, order));
    }

    /** The folder map, reused within its window. One task alone never finds that the
        generation moved while it waited for the lock, so the check under the lock is left
        to the protocol of concurrent calls. */
    method GetFolderMap(refresh: bool) returns (r: Result<FolderMap>, ghost reused: bool)
      requires Valid()
      modifies this`folderPaths, this`folderPathsExpiry, this`folderMapGeneration, clock
      ensures Valid() && clock.now >= old(clock.now)
      ensures old(Current()) ==> Current()
      ensures reused ==>
                && !refresh && old(folderPaths).Some? && r == Ok(old(folderPaths).value)
                && old(clock.now) < old(folderPathsExpiry)
                && unchanged(this)
      ensures !reused ==> refresh || old(folderPaths).None? || clock.now >= old(folderPathsExpiry)
      ensures r.Ok? <==> reused || CanEnumerate()
      ensures r.Err? ==> IsScopeError(r.error)
      ensures !reused && r.Ok? ==>
                && folderMapGeneration == old(folderMapGeneration) + 1
                && FreshlyListed(r.value.paths)
                && if ttl > 0.0 then
                     && folderPaths == Some(r.value)
                     && old(clock.now) + ttl <= folderPathsExpiry <= clock.now + ttl
                   else folderPaths == old(folderPaths) && folderPathsExpiry == old(folderPathsExpiry)
      ensures r.Err? ==>
                unchanged(this) && (r.error.ScopeViolation? && location.Some? ==> IsRootRefusal(r.error))
      ensures r.Ok? ==> location.Some? && Ordered(r.value.paths, r.value.order)
      ensures r.Ok? && old(Current()) ==> IsCurrent(r.value.paths)
    {
      reused := false;
      if !refresh {
        var cached := CachedFolderMap();
        if cached.Some? {
          return Ok(cached.value), true;
        }
      }
      r := Enumerated();
    }

    /** Enumerates and stores; the window opens before the query, not after it. */
    method Enumerated() returns (r: Result<FolderMap>)
      requires Valid()
      modifies this`folderPaths, this`folderPathsExpiry, this`folderMapGeneration, clock
      ensures Valid() && clock.now >= old(clock.now)
      ensures old(Current()) ==> Current()
      ensures r.Ok? <==> CanEnumerate()
      ensures r.Err? ==> IsScopeError(r.error)
      ensures r.Ok? ==>
                && folderMapGeneration == old(folderMapGeneration) + 1
                && FreshlyListed(r.value.paths)
                && if ttl > 0.0 then
                     && folderPaths == Some(r.value)
                     && old(clock.now) + ttl <= folderPathsExpiry <= clock.now + ttl
                   else folderPaths == old(folderPaths) && folderPathsExpiry == old(folderPathsExpiry)
      ensures r.Err? ==>
                unchanged(this) && (r.error.ScopeViolation? && location.Some? ==> IsRootRefusal(r.error))
      ensures r.Ok? ==> location.Some? && Ordered(r.value.paths, r.value.order)
      ensures r.Ok? && old(Current()) ==> IsCurrent(r.value.paths)
    {
      var started := clock.Read();
      r := EnumerateFolderPaths();
      if r.Err? {
        return;
      }
      Store(r.value, started);
    }

    method Store(paths: FolderMap, started: real)
      requires Valid() && location.Some? && Ordered(paths.paths, paths.order)
      modifies this`folderPaths, this`folderPathsExpiry, this`folderMapGeneration
      ensures Valid()
      ensures folderMapGeneration == old(folderMapGeneration) + 1
      ensures if ttl > 0.0 then folderPaths == Some(paths) && folderPathsExpiry == started + ttl
              else folderPaths == old(folderPaths) && folderPathsExpiry == old(folderPathsExpiry)
    {
      folderMapGeneration := folderMapGeneration + 1;
      if ttl > 0.0 {
        folderPaths := Some(paths);
        folderPathsExpiry := started + ttl;
      }
    }

    /** Where the map a decision used came from: stored before the call and still within its
        window then, or listed inside the call, after a re-read of the root. */
    twostate predicate Supplied(paths: map<string, string>)
      reads this`location, this`folderPaths, this`folderPathsExpiry, clock, gateway`items, gateway`lists
    {
      || (old(folderPaths).Some? && old(clock.now) < old(folderPathsExpiry) && paths == old(folderPaths).value.paths)
      || FreshlyListed(paths)
    }

    /** A map was stored before the call, and its window outlasts the call. */
    twostate predicate IsWarm()
      reads this`folderPaths, this`folderPathsExpiry, clock
    {
      old(folderPaths).Some? && clock.now < old(folderPathsExpiry)
    }

    /** And that map has the folder. */
    twostate predicate IsWarmFor(parent: string)
      reads this`folderPaths, this`folderPathsExpiry, clock
    {
      IsWarm() && parent in old(folderPaths).value.paths
    }

    twostate predicate IsWarmForItem(itemId: string)
      reads this`location, this`folderPaths, this`folderPathsExpiry, clock, gateway`items
    {
      && location.Some? && itemId in gateway.items
      && LiveOutcome(gateway.items[itemId], location.value).None?
      && IsWarmFor(gateway.items[itemId].parents[0])
    }

    /** What an allow rests on: for the root its own re-read; for anything else live metadata
        and a map that was supplied as above. */
    twostate predicate Rests(itemId: string, path: string, used: map<string, string>)
      reads this`location, this`folderPaths, this`folderPathsExpiry, clock, gateway`items, gateway`lists
    {
      && location.Some? && itemId in gateway.items
      && var item := gateway.items[itemId];
      if itemId == rootFolderId then RootIsValid() && path == "."
      else
        && location.value.Contains(item.driveId) && !item.trashed && item.mimeType != SHORTCUT_MIME_TYPE
        && |item.parents| == 1 && item.parents[0] in used
        && path == (if used[item.parents[0]] == "." then item.name else used[item.parents[0]] + "/" + item.name)
        && Supplied(used)
    }

    /** The map a search uses. */
    method SuppliedMap() returns (r: Result<FolderMap>)
      requires Valid()
      modifies this`folderPaths, this`folderPathsExpiry, this`folderMapGeneration, clock
      ensures Valid() && clock.now >= old(clock.now)
      ensures old(Current()) ==> Current()
      ensures CanEnumerate() ==> r.Ok?
      ensures IsWarm() ==> r == Ok(old(folderPaths).value) && unchanged(this)
      ensures r.Ok? ==> location.Some? && Supplied(r.value.paths) && Ordered(r.value.paths, r.value.order)
      ensures r.Ok? && old(Current()) ==> IsCurrent(r.value.paths)
    {
      ghost var reused;
      r, reused := GetFolderMap(false);
    }

    /** The path of the folder above an item, if a map has it. A miss on a reused map is
        asked once more of a refreshed one. */
    method LookUpParent(parent: string) returns (r: Result<Option<string>>, ghost used: map<string, string>)
      requires Valid()
      modifies this`folderPaths, this`folderPathsExpiry, this`folderMapGeneration, clock
      ensures Valid() && clock.now >= old(clock.now)
      ensures old(Current()) ==> Current()
      ensures CanEnumerate() ==> r.Ok?
      ensures IsWarmFor(parent) ==> r.Ok? && r.value.Some? && unchanged(this)
      ensures r.Err? ==> IsScopeError(r.error)
      ensures r.Ok? ==>
                && location.Some? && Supplied(used)
                && (r.value.Some? <==> parent in used) && (r.value.Some? ==> r.value.value == used[parent])
                && (r.value.None? ==> FreshlyListed(used))
      ensures r.Ok? && old(Current()) ==> IsCurrent(used)
      ensures r.Err? && r.error.ScopeViolation? && location.Some? ==> IsRootRefusal(r.error)
    {
      used := map[];
      var cached := CachedFolderMap();
      var folderMap;
      ghost var reused;
      folderMap, reused := GetFolderMap(false);
      if folderMap.Err? {
        return Err(folderMap.error), used;
      }
      if parent !in folderMap.value.paths && cached.Some? {
        folderMap, reused := GetFolderMap(true);
        if folderMap.Err? {
          return Err(folderMap.error), used;
        }
      }
      used := folderMap.value.paths;
      r := Ok(if parent in folderMap.value.paths then Some(folderMap.value.paths[parent]) else None);
    }

    /** Proves that one item is inside the subtree now. The item is always read live; only
        the chain above it comes from a map, and "outside" is never said on a reused one. */
    method Authorize(itemId: string) returns (r: Result<(DriveItem, string)>, ghost used: map<string, string>)
      requires Valid()
      modifies this`folderPaths, this`folderPathsExpiry, this`folderMapGeneration, clock
      ensures Valid() && clock.now >= old(clock.now)
      ensures old(Current()) ==> Current()
      ensures r.Err? ==> IsScopeError(r.error)
      ensures r.Ok? ==> Rests(itemId, r.value.1, used) && r.value.0 == gateway.items[itemId]
      ensures itemId != rootFolderId && IsWarmForItem(itemId) ==> r.Ok? && unchanged(this)
      ensures r.Ok? && old(Current()) ==> IsAllowed(itemId, r.value.1)
      ensures itemId != rootFolderId && location.Some? && itemId in gateway.items ==> RefusedAsItShould(gateway.items[itemId], r)
      ensures r == Err(ScopeViolation(OutsideSubtree)) ==>
                && itemId in gateway.items && |gateway.items[itemId].parents| == 1
                && FreshlyListed(used) && gateway.items[itemId].parents[0] !in used
      ensures r.Err? && r.error.ScopeViolation? && old(Current()) ==> IsDecision(itemId, r) || IsRootRefusal(r.error)
      ensures old(Current()) && CanEnumerate() && itemId in gateway.items ==>
                IsDecision(itemId, r) && (r.Ok? <==> IsInside(itemId))
      ensures itemId !in gateway.items ==> r == Err(DriveNotFound)
    {
      used := map[];
      if itemId == rootFolderId {
        var root := ValidatedRoot();
        r := if root.Ok? then Ok((root.value, ".")) else Err(root.error);
        if location.Some? && itemId in gateway.items {
          IsDecided(itemId, r, RootOutcome(gateway.items[itemId], rootFolderId, location.value));
        }
        return;
      }
      var got := gateway.GetItem(itemId);
      if got.Err? {
        return Err(got.error), used;
      }
      var item := got.value;
      if location.None? {
        return Err(NotInitialized), used;
      }
      var refusal := LiveRefusal(item, location.value);
      if refusal.Some? {
        r := Err(ScopeViolation(refusal.value));
        IsDecided(itemId, r, Refuse(refusal.value));
        return;
      }
      if |item.parents| != 1 {
        r := Err(ScopeViolation(AncestryUnprovable));
        IsDecided(itemId, r, Refuse(AncestryUnprovable));
        return;
      }
      r, used := AuthorizeByMap(itemId, item);
    }

    /** The rest of it, for an item that passed the live checks: what the map says. */
    method AuthorizeByMap(itemId: string, item: DriveItem) returns (r: Result<(DriveItem, string)>, ghost used: map<string, string>)
      requires Valid() && itemId in gateway.items && gateway.items[itemId] == item && itemId != rootFolderId
      requires location.Some? && LiveOutcome(item, location.value).None?
      modifies this`folderPaths, this`folderPathsExpiry, this`folderMapGeneration, clock
      ensures Valid() && clock.now >= old(clock.now)
      ensures old(Current()) ==> Current()
      ensures r.Err? ==> IsScopeError(r.error)
      ensures r.Ok? ==> Rests(itemId, r.value.1, used) && r.value.0 == item
      ensures IsWarmFor(item.parents[0]) ==> r.Ok? && unchanged(this)
      ensures r.Ok? && old(Current()) ==> IsAllowed(itemId, r.value.1)
      ensures r == Err(ScopeViolation(OutsideSubtree)) ==> FreshlyListed(used) && item.parents[0] !in used
      ensures r.Err? && r.error.ScopeViolation? && old(Current()) ==> IsDecision(itemId, r) || IsRootRefusal(r.error)
      ensures old(Current()) && CanEnumerate() ==> IsDecision(itemId, r) && (r.Ok? <==> IsInside(itemId))
    {
      var parentPath;
      parentPath, used := LookUpParent(item.parents[0]);
      if parentPath.Err? {
        return Err(parentPath.error), used;
      }
      r := if parentPath.value.None? then Err(ScopeViolation(OutsideSubtree))
           else Ok((item, ChildPath(parentPath.value.value, item.name)));
      if IsFolderMap(rootFolderId, ListedFolders(gateway.items), location.value, used) {
        MapGivesVerdict(rootFolderId, location.value, gateway.items, itemId, used);
        IsDecided(itemId, r, MapOutcome(item, used));
      }
    }

    /** The four refusals on live metadata: each is given whenever its rule is the first that
        the item breaks. */
    ghost predicate RefusedAsItShould(item: DriveItem, r: Result<(DriveItem, string)>)
      requires location.Some?
      reads this`location
    {
      var here := location.value.Contains(item.driveId);
      && (!here ==> r == Err(ScopeViolation(WrongLocation)))
      && (here && item.trashed ==> r == Err(ScopeViolation(Trashed)))
      && (here && !item.trashed && item.mimeType == SHORTCUT_MIME_TYPE ==> r == Err(ScopeViolation(Shortcut)))
      && (here && !item.trashed && item.mimeType != SHORTCUT_MIME_TYPE && |item.parents| != 1 ==>
            r == Err(ScopeViolation(AncestryUnprovable)))
    }

    lemma IsDecided(itemId: string, r: Result<(DriveItem, string)>, o: Outcome)
      requires location.Some? && r == Answer(o)
      requires IsVerdict(rootFolderId, location.value, gateway.items, itemId, o)
      ensures IsDecision(itemId, r)
      ensures r.Ok? ==> o == Allow(r.value.0, r.value.1)
      ensures KeyedById(gateway.items) ==> (r.Ok? <==> IsInside(itemId))
    {
      if KeyedById(gateway.items) {
        assert o.Allow? ==> IsAllowed(itemId, o.path);
        forall path | IsAllowed(itemId, path)
          ensures o.Allow?
        {
          VerdictIsUnique(rootFolderId, location.value, gateway.items, itemId, o, Allow(gateway.items[itemId], path));
        }
      }
    }

    /** Whether `get_metadata` on the Drive there is now would answer exactly this item. */
    ghost predicate Named(s: ScopedItem)
      requires location.Some?
      reads this`location, gateway`items
    {
      && s.id in gateway.items
      && Describes(s, gateway.items[s.id])
      && IsVerdict(rootFolderId, location.value, gateway.items, s.id, Allow(gateway.items[s.id], s.relativePath))
    }

    ghost predicate AllNamed(items: seq<ScopedItem>)
      requires location.Some?
      reads this`location, gateway`items
    {
      forall s :: s in items ==> Named(s)
    }

    method GetMetadata(itemId: string) returns (r: Result<ScopedItem>, ghost used: map<string, string>)
      requires Valid()
      modifies this`folderPaths, this`folderPathsExpiry, this`folderMapGeneration, clock
      ensures Valid() && clock.now >= old(clock.now)
      ensures old(Current()) ==> Current()
      ensures r.Ok? ==>
                && Rests(itemId, r.value.relativePath, used)
                && Describes(r.value, gateway.items[itemId])
      ensures r.Ok? && old(Current()) ==> r.value.id == itemId && Named(r.value)
      ensures old(Current()) && CanEnumerate() && itemId in gateway.items ==>
                (r.Ok? <==> IsInside(itemId))
    {
      var authorized;
      authorized, used := Authorize(itemId);
      if authorized.Err? {
        return Err(authorized.error), used;
      }
      r := Ok(ToScopedItem(authorized.value.0, authorized.value.1));
    }

    /** `folder_id or self.root_folder_id`. */
    function FolderAsked(asked: Option<string>): (r: string)
      ensures asked.None? ==> r == rootFolderId
      ensures asked == Some("") ==> r == rootFolderId
      ensures asked.Some? && asked.value != "" ==> r == asked.value
    {
      if asked.None? || asked.value == "" then rootFolderId else asked.value
    }

    /** An allowed folder whose children Drive lists completely. */
    ghost predicate CanListFolder(folderId: string)
      requires location.Some? && folderId in gateway.items
      reads this`location, gateway`items, gateway`lists
    {
      && IsFolder(gateway.items[folderId]) && IsInside(folderId)
      && Finishes(gateway.lists, Query.ChildrenQuery(folderId), Some("name_natural"))
    }

    /** The safe children on a complete listing of the folder, in its order. */
    ghost predicate AreChildren(folderId: string, folderPath: string, r: seq<ScopedItem>)
      reads this`location, gateway`lists
    {
      location.Some? && exists children ::
        && IsListing(gateway.lists, Query.ChildrenQuery(folderId), Some("name_natural"), children)
        && r == SafeChildren(children, folderId, rootFolderId, folderPath, location.value)
    }

    /** A child is what `get_metadata` would answer, path included, exactly when the folder is
        the root or its own path is not "."; and the root, listed as a child, only when it is
        its own parent and named ".". */
    ghost predicate ChildrenAgree(folderId: string, folderPath: string, r: seq<ScopedItem>)
      requires location.Some?
      reads this`location, gateway`items
    {
      forall s :: s in r ==> (Named(s) <==> PathAgrees(rootFolderId, folderId, folderPath, s.id, s.name))
    }

    /** The direct children of an authorized folder that are safe to name, in Drive's order. */
    method ListFolder(asked: Option<string>)
      returns (r: Result<seq<ScopedItem>>, ghost folderPath: string, ghost used: map<string, string>)
      requires Valid()
      modifies this`folderPaths, this`folderPathsExpiry, this`folderMapGeneration, clock
      ensures Valid() && clock.now >= old(clock.now)
      ensures old(Current()) ==> Current()
      ensures r.Ok? ==> Rests(FolderAsked(asked), folderPath, used) && IsFolder(gateway.items[FolderAsked(asked)])
      ensures r.Ok? ==> AreChildren(gateway.items[FolderAsked(asked)].id, folderPath, r.value)
      ensures r.Ok? && old(Current()) ==> IsAllowed(FolderAsked(asked), folderPath)
      ensures r.Ok? && old(Current()) ==> ChildrenAgree(FolderAsked(asked), folderPath, r.value)
      ensures old(Current()) && CanEnumerate() && FolderAsked(asked) in gateway.items ==>
                (r.Ok? <==> CanListFolder(FolderAsked(asked)))
      ensures r.Err? ==> IsScopeError(r.error)
    {
      folderPath := "";
      var authorized;
      authorized, used := AuthorizeFolder(FolderAsked(asked));
      if authorized.Err? {
        return Err(authorized.error), folderPath, used;
      }
      folderPath := authorized.value.1;
      label allowed:
      r := ChildrenOf(authorized.value.0.id, authorized.value.1);
      assert unchanged@allowed(this, clock, gateway);
    }

    /** Authorizes an item and refuses what is not a folder. */
    method AuthorizeFolder(folderId: string) returns (r: Result<(DriveItem, string)>, ghost used: map<string, string>)
      requires Valid()
      modifies this`folderPaths, this`folderPathsExpiry, this`folderMapGeneration, clock
      ensures Valid() && clock.now >= old(clock.now)
      ensures old(Current()) ==> Current()
      ensures r.Ok? ==> Rests(folderId, r.value.1, used) && r.value.0 == gateway.items[folderId] && IsFolder(r.value.0)
      ensures r.Ok? && old(Current()) ==> IsAllowed(folderId, r.value.1)
      ensures r.Err? ==> IsScopeError(r.error)
      ensures old(Current()) && CanEnumerate() && folderId in gateway.items ==>
                (r.Ok? <==> IsFolder(gateway.items[folderId]) && IsInside(folderId))
    {
      r, used := Authorize(folderId);
      if r.Ok? && !IsFolder(r.value.0) {
        return Err(ScopeViolation(NotAFolder)), used;
      }
    }

    /** The complete listing of a folder, filtered. */
    method ChildrenOf(folderId: string, folderPath: string) returns (r: Result<seq<ScopedItem>>)
      requires location.Some?
      ensures r.Ok? <==> Finishes(gateway.lists, Query.ChildrenQuery(folderId), Some("name_natural"))
      ensures r.Err? ==> IsScopeError(r.error)
      ensures r.Ok? ==> AreChildren(folderId, folderPath, r.value)
      ensures Current() && folderId in gateway.items && IsFolder(gateway.items[folderId]) && IsAllowed(folderId, folderPath) ==>
                (r.Ok? ==> ChildrenAgree(folderId, folderPath, r.value))
    {
      var children := gateway.ListWhole(Query.ChildrenQuery(folderId), Some("name_natural"));
      if children.Err? {
        return Err(children.error);
      }
      var safeChildren := CollectSafeChildren(children.value, folderId, rootFolderId, folderPath, location.value);
      r := Ok(safeChildren);
      if Current() && folderId in gateway.items && IsFolder(gateway.items[folderId]) && IsAllowed(folderId, folderPath) {
        ChildrenAreNamed(children.value, folderId, folderPath);
      }
    }

    lemma ChildrenAreNamed(children: seq<DriveItem>, folderId: string, folderPath: string)
      requires Current() && folderId in gateway.items && IsFolder(gateway.items[folderId])
      requires IsListing(gateway.lists, Query.ChildrenQuery(folderId), Some("name_natural"), children)
      requires IsAllowed(folderId, folderPath)
      ensures ChildrenAgree(folderId, folderPath, SafeChildren(children, folderId, rootFolderId, folderPath, location.value))
    {
      ListingsAreItems(gateway.items, gateway.lists, Query.ChildrenQuery(folderId), Some("name_natural"), children);
      SafeChildrenMeaning(children, folderId, rootFolderId, folderPath, location.value);
      forall s | s in SafeChildren(children, folderId, rootFolderId, folderPath, location.value)
        ensures Named(s) <==> PathAgrees(rootFolderId, folderId, folderPath, s.id, s.name)
      {
        var child :| child in children && IsDirectSafeChild(child, folderId, location.value)
          && s == ToScopedItem(child, ListedPath(rootFolderId, folderId, folderPath, child.name));
        ListedPathAgrees(rootFolderId, location.value, gateway.items, folderId, folderPath, child.id);
      }
    }

    /** The batch loop of `search`. */
    method AskBatches(folderMap: FolderMap, keywords: string, limit: nat)
      returns (rankedBatches: seq<Merge.Batch>, incomplete: bool, hasMore: bool)
      requires location.Some?
      ensures exists pages, fetched ::
                && Search.Answered(gateway.lists, folderMap.order, keywords, limit, pages, fetched)
                && Search.AsksForAll(gateway.lists, folderMap.order, keywords, limit, pages)
                && Collected(pages, folderMap.paths, location.value, rankedBatches, incomplete, hasMore)
    {
      var folderIds := folderMap.order;
      rankedBatches, incomplete, hasMore := [], false, false;
      ghost var pages: seq<Listing.SearchPage>, fetched: seq<nat> := [], [];
      var offset := 0;
      while offset < |folderIds|
        invariant offset == |pages| * Search.PARENT_BATCH
        invariant Search.AnsweredSoFar(gateway.lists, folderIds, keywords, limit, pages, fetched)
        invariant Collected(pages, folderMap.paths, location.value, rankedBatches, incomplete, hasMore)
        decreases |folderIds| - offset
      {
        var parentBatch := Merge.UpTo(folderIds[offset..], Search.PARENT_BATCH);
        var page;
        ghost var n;
        page, n := gateway.SearchItems(parentBatch, keywords, limit + 1);
        assert Search.BatchAnswered(gateway.lists, folderIds, keywords, limit, |pages|, page.value, n);
        Search.OneBatchMore(gateway.lists, folderIds, keywords, limit, pages, fetched, page.value, n);
        Search.OnePageMore(pages, page.value, folderMap.paths, location.value);
        incomplete := incomplete || page.value.incomplete;
        hasMore := hasMore || page.value.hasMore;
        var batch := Search.CollectSafeHits(page.value.items, folderMap.paths, location.value);
        rankedBatches := rankedBatches + [batch];
        pages, fetched := pages + [page.value], fetched + [n];
        offset := offset + Search.PARENT_BATCH;
      }
      assert Search.Answered(gateway.lists, folderMap.order, keywords, limit, pages, fetched);
      Search.AnsweredAsksForAll(gateway.lists, folderMap.order, keywords, limit, pages, fetched);
    }

    /** Search over every folder of the map, in batches of at most 400 parents. */
    method SearchFor(keywords: string, limit: int) returns (r: Result<SearchResult>, ghost used: FolderMap)
      requires Valid()
      modifies this`folderPaths, this`folderPathsExpiry, this`folderMapGeneration, clock
      ensures Valid() && clock.now >= old(clock.now)
      ensures old(Current()) ==> Current()
      ensures limit < 0 ==> r.Err?
      ensures limit >= 0 && CanEnumerate() ==> r.Ok?
      ensures limit >= 0 && IsWarm() ==> r.Ok? && unchanged(this) && used == old(folderPaths).value
      ensures r.Ok? ==> limit >= 0 && location.Some? && Supplied(used.paths) && Ordered(used.paths, used.order)
      ensures r.Ok? ==> IsResult(used, keywords, limit, r.value)
      ensures r.Ok? && old(Current()) ==> AllNamed(r.value.items)
    {
      if limit + 1 < 1 {
        var folderMap := SuppliedMap();
        used := FolderMap(map[], []);
        r := Err(if folderMap.Err? then folderMap.error else InvalidArgument);  // the gateway refuses the first batch
      } else {
        r, used := SearchUpTo(keywords, limit);
      }
    }

    method SearchUpTo(keywords: string, limit: nat) returns (r: Result<SearchResult>, ghost used: FolderMap)
      requires Valid()
      modifies this`folderPaths, this`folderPathsExpiry, this`folderMapGeneration, clock
      ensures Valid() && clock.now >= old(clock.now)
      ensures old(Current()) ==> Current()
      ensures CanEnumerate() ==> r.Ok?
      ensures IsWarm() ==> r.Ok? && unchanged(this) && used == old(folderPaths).value
      ensures r.Ok? ==> location.Some? && Ordered(used.paths, used.order)
      ensures r.Ok? ==> Supplied(used.paths)
      ensures r.Ok? ==> IsResult(used, keywords, limit, r.value)
      ensures r.Ok? && old(Current()) ==> AllNamed(r.value.items)
    {
      used := FolderMap(map[], []);
      var folderMap := SuppliedMap();
      if folderMap.Err? {
        return Err(folderMap.error), used;
      }
      used := folderMap.value;
      label asked:
      var found := SearchIn(folderMap.value, keywords, limit);
      assert unchanged@asked(this, clock, gateway);
      r := Ok(found);
    }

    /** The answer to a search is the first `limit` items of the rank merge of what Drive
        answered for each batch of parents. */
    ghost predicate IsResult(used: FolderMap, keywords: string, limit: nat, r: SearchResult)
      requires location.Some?
      reads this`location, gateway`lists
    {
      exists pages, fetched ::
        && Search.Answered(gateway.lists, used.order, keywords, limit, pages, fetched)
        && Search.AsksForAll(gateway.lists, used.order, keywords, limit, pages)
        && r == ResultOf(pages, used.paths, location.value, limit)
    }

    /** Asks, merges and cuts. */
    method SearchIn(folderMap: FolderMap, keywords: string, limit: nat) returns (r: SearchResult)
      requires location.Some?
      ensures IsResult(folderMap, keywords, limit, r)
      ensures Current() && IsCurrent(folderMap.paths) ==> AllNamed(r.items)
    {
      var rankedBatches, incomplete, hasMore := AskBatches(folderMap, keywords, limit);
      ghost var pages, fetched :|
        && Search.Answered(gateway.lists, folderMap.order, keywords, limit, pages, fetched)
        && Search.AsksForAll(gateway.lists, folderMap.order, keywords, limit, pages)
        && Collected(pages, folderMap.paths, location.value, rankedBatches, incomplete, hasMore);
      var candidates := Merge.InterleaveByRank(rankedBatches);
      var items := Scoped(Merge.UpTo(candidates, limit));
      r := SearchResult(items, |candidates| > limit || hasMore, incomplete);
      assert r == ResultOf(pages, folderMap.paths, location.value, limit);
      if Current() && IsCurrent(folderMap.paths) {
        HitsAreNamed(folderMap, keywords, limit, pages, fetched);
      }
    }

    lemma HitsAreNamed(
      used: FolderMap, keywords: string, limit: nat, pages: seq<Listing.SearchPage>, fetched: seq<nat>)
      requires Current() && IsCurrent(used.paths)
      requires Search.Answered(gateway.lists, used.order, keywords, limit, pages, fetched)
      ensures AllNamed(ResultOf(pages, used.paths, location.value, limit).items)
    {
      var batches := Search.Batches(Search.ItemsOf(pages), used.paths, location.value);
      var top := Merge.UpTo(Merge.Merged(batches), limit);
      forall s | s in Scoped(top)
        ensures Named(s)
      {
        var k :| 0 <= k < |top| && s == ToScopedItem(top[k].item, top[k].relativePath);
        var b := Merge.MergedAreHits(batches, k);
        HitIsNamed(used.paths, pages[b], fetched[b], b, used.order, keywords, limit, top[k]);
      }
    }

    lemma HitIsNamed(
      paths: map<string, string>, page: Listing.SearchPage, fetched: nat, b: nat,
      folderIds: seq<string>, keywords: string, limit: nat, hit: Merge.Hit)
      requires Current() && IsCurrent(paths)
      requires Search.BatchAnswered(gateway.lists, folderIds, keywords, limit, b, page, fetched)
      requires hit in Search.SafeHits(page.items, paths, location.value)
      ensures Named(ToScopedItem(hit.item, hit.relativePath))
    {
      Search.SafeHitsAreSafe(page.items, paths, location.value);
      var query := Query.SearchQuery(Search.ParentBatch(folderIds, b), keywords).value;
      DistinctAreItems(gateway.items, gateway.lists, Listing.FirstRequest(query, None, Some(limit + 1)), fetched);
      MapGivesVerdict(rootFolderId, location.value, gateway.items, hit.item.id, paths);
    }

    /** Inside the subtree, and something to download. */
    ghost predicate IsDocument(fileId: string)
      requires location.Some? && fileId in gateway.items
      reads this`location, gateway`items
    {
      && !IsFolder(gateway.items[fileId]) && gateway.items[fileId].canDownload
      && IsInside(fileId)
    }

    /** Proves membership once for an item about to be read, and remembers the proof. */
    method AuthorizeDocument(fileId: string) returns (r: Result<AuthorizedItem>, ghost used: map<string, string>)
      requires Valid()
      modifies this`folderPaths, this`folderPathsExpiry, this`folderMapGeneration, this`issued, clock
      ensures Valid() && clock.now >= old(clock.now)
      ensures old(Current()) ==> Current()
      ensures r.Ok? ==> fresh(r.value) && issued == old(issued) + {r.value}
      ensures r.Ok? ==> fileId != rootFolderId && Rests(fileId, r.value.relativePath, used)
      ensures r.Ok? ==> r.value.item == gateway.items[fileId] && IsReadable(r.value.item)
      ensures r.Ok? ==> r.value.item.canDownload && r.value.item.mimeType != FOLDER_MIME_TYPE
      ensures r.Ok? && old(Current()) ==> IsAllowed(fileId, r.value.relativePath)
      ensures r.Err? ==> IsScopeError(r.error)
      ensures r.Err? ==> issued == old(issued)
      ensures old(Current()) && CanEnumerate() && fileId in gateway.items ==> (r.Ok? <==> IsDocument(fileId))
    {
      var document;
      document, used := AuthorizeReadable(fileId);
      if document.Err? {
        return Err(document.error), used;
      }
      label readable:
      var proof := Issue(document.value.0, document.value.1);
      assert unchanged@readable(clock, gateway);
      r := Ok(proof);
    }

    /** Authorizes an item and refuses what has no content to read. */
    method AuthorizeReadable(fileId: string) returns (r: Result<(DriveItem, string)>, ghost used: map<string, string>)
      requires Valid()
      modifies this`folderPaths, this`folderPathsExpiry, this`folderMapGeneration, clock
      ensures Valid() && clock.now >= old(clock.now)
      ensures old(Current()) ==> Current()
      ensures r.Ok? ==> fileId != rootFolderId && Rests(fileId, r.value.1, used)
      ensures r.Ok? ==> r.value.0 == gateway.items[fileId] && IsReadable(r.value.0)
      ensures r.Ok? ==> r.value.0.canDownload && r.value.0.mimeType != FOLDER_MIME_TYPE
      ensures r.Ok? && old(Current()) ==> IsAllowed(fileId, r.value.1)
      ensures r.Err? ==> IsScopeError(r.error)
      ensures old(Current()) && CanEnumerate() && fileId in gateway.items ==> (r.Ok? <==> IsDocument(fileId))
    {
      r, used := Authorize(fileId);
      if r.Err? {
        return;
      }
      if IsFolder(r.value.0) {
        return Err(ScopeViolation(NotADocument)), used;
      }
      if !r.value.0.canDownload {
        return Err(ScopeViolation(NotDownloadable)), used;
      }
    }

    method Issue(item: DriveItem, relativePath: string) returns (proof: AuthorizedItem)
      requires Valid() && IsReadable(item)
      modifies this`issued
      ensures Valid() && fresh(proof) && issued == old(issued) + {proof}
      ensures proof.item == item && proof.relativePath == relativePath
    {
      proof := new AuthorizedItem(item, relativePath);
      issued := issued + {proof};
    }

    /** Fetches bytes for exactly the proofs this scope issued. */
    method Download(authorized: AuthorizedItem, exportMimeType: Option<string>) returns (r: Result<Content>)
      requires Valid()
      modifies gateway`fetches
      ensures authorized !in issued ==> r == Err(ScopeViolation(ForeignProof)) && gateway.fetches == old(gateway.fetches)
      ensures authorized in issued ==>
                && IsReadable(authorized.item)
                && gateway.fetches == old(gateway.fetches) +
                     [if exportMimeType.None? then Fetch.Download(authorized.item.id)
                      else Export(authorized.item.id, exportMimeType.value)]
                && r == if authorized.item.id in gateway.items
                        then Ok(gateway.content(gateway.items[authorized.item.id], exportMimeType))
                        else Err(DriveNotFound)
    {
      if authorized !in issued {
        return Err(ScopeViolation(ForeignProof));
      }
      if exportMimeType.None? {
        r := gateway.DownloadItem(authorized.item.id);
      } else {
        r := gateway.ExportItem(authorized.item.id, exportMimeType.value);
      }
    }
  }

  /** The safe children of a folder in listing order, each with the path `list_folder` gives it. */
  function SafeChildren(
    children: seq<DriveItem>, folderId: string, rootId: string, folderPath: string, location: DriveLocation)
    : seq<ScopedItem>
  {
    if children == [] then [] else
      var child := children[|children| - 1];
      var front := SafeChildren(children[..|children| - 1], folderId, rootId, folderPath, location);
      if IsDirectSafeChild(child, folderId, location)
      then front + [ToScopedItem(child, ListedPath(rootId, folderId, folderPath, child.name))]
      else front
  }

  /** The loop of `list_folder`. */
  method CollectSafeChildren(
    children: seq<DriveItem>, folderId: string, rootId: string, folderPath: string, location: DriveLocation)
    returns (safeChildren: seq<ScopedItem>)
    ensures safeChildren == SafeChildren(children, folderId, rootId, folderPath, location)
  {
    safeChildren := [];
    for k := 0 to |children|
      invariant safeChildren == SafeChildren(children[..k], folderId, rootId, folderPath, location)
    {
      assert children[..k + 1][..k] == children[..k];
      var child := children[k];
      if IsDirectSafeChild(child, folderId, location) {
        var relativePath := ListedPath(rootId, folderId, folderPath, child.name);
        safeChildren := safeChildren + [ToScopedItem(child, relativePath)];
      }
    }
    assert children[..|children|] == children;
  }

  lemma {:induction false} SafeChildrenMeaning(
    children: seq<DriveItem>, folderId: string, rootId: string, folderPath: string, location: DriveLocation)
    ensures forall s :: s in SafeChildren(children, folderId, rootId, folderPath, location) <==>
              exists child ::
                && child in children && child.parents == [folderId] && location.Contains(child.driveId)
                && !child.trashed && child.mimeType != SHORTCUT_MIME_TYPE
                && s == ToScopedItem(child, ListedPath(rootId, folderId, folderPath, child.name))
  {
    if children != [] {
      var n := |children| - 1;
      SafeChildrenMeaning(children[..n], folderId, rootId, folderPath, location);
      assert forall x :: x in children <==> x in children[..n] || x == children[n];
    }
  }

  ghost predicate MayBeNamed(child: DriveItem, folderId: string, location: DriveLocation) {
    && child.parents == [folderId] && location.Contains(child.driveId) && !child.trashed
    && child.mimeType != SHORTCUT_MIME_TYPE
  }

  ghost predicate IsEntry(s: ScopedItem, child: DriveItem, folderId: string, rootId: string, folderPath: string) {
    && Describes(s, child)
    && s.relativePath == if folderId == rootId then child.name else folderPath + "/" + child.name
  }

  /** Entry i of the result is child `at[i]`, the positions increase, and they are those of
      the children that are safe to name. */
  ghost predicate AreNamed(
    children: seq<DriveItem>, folderId: string, rootId: string, folderPath: string, location: DriveLocation,
    at: seq<nat>, r: seq<ScopedItem>)
  {
    && |at| == |r|
    && (forall i, j :: 0 <= i < j < |at| ==> at[i] < at[j])
    && (forall k: nat :: k in at <==> k < |children| && MayBeNamed(children[k], folderId, location))
    && (forall i :: 0 <= i < |at| ==> at[i] < |children| && IsEntry(r[i], children[at[i]], folderId, rootId, folderPath))
  }

  lemma OneMoreChild(
    front: seq<DriveItem>, child: DriveItem, folderId: string, rootId: string, folderPath: string, location: DriveLocation,
    at: seq<nat>, r: seq<ScopedItem>, s: ScopedItem)
    requires AreNamed(front, folderId, rootId, folderPath, location, at, r)
    requires IsEntry(s, child, folderId, rootId, folderPath)
    ensures if MayBeNamed(child, folderId, location)
            then AreNamed(front + [child], folderId, rootId, folderPath, location, at + [|front|], r + [s])
            else AreNamed(front + [child], folderId, rootId, folderPath, location, at, r)
  {
    var all := front + [child];
    assert all[|front|] == child && forall k :: 0 <= k < |front| ==> all[k] == front[k];
    forall i | 0 <= i < |at|
      ensures at[i] < |front|
    {
      assert at[i] in at;
    }
  }

  /** A folder's children are named in Drive's order, each once. */
  lemma {:induction false} SafeChildrenInOrder(
    children: seq<DriveItem>, folderId: string, rootId: string, folderPath: string, location: DriveLocation)
    returns (at: seq<nat>)
    ensures AreNamed(
              children, folderId, rootId, folderPath, location, at,
              SafeChildren(children, folderId, rootId, folderPath, location))
  {
    at := [];
    if children != [] {
      var front, child := children[..|children| - 1], children[|children| - 1];
      assert front + [child] == children;
      at := SafeChildrenInOrder(front, folderId, rootId, folderPath, location);
      OneMoreChild(
        front, child, folderId, rootId, folderPath, location, at,
        SafeChildren(front, folderId, rootId, folderPath, location),
        ToScopedItem(child, ListedPath(rootId, folderId, folderPath, child.name)));
      if MayBeNamed(child, folderId, location) {
        at := at + [|front|];
      }
    }
  }

  predicate IsReadable(item: DriveItem) {
    !IsFolder(item) && item.canDownload && !item.trashed && item.mimeType != SHORTCUT_MIME_TYPE
  }
}
