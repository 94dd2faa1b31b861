/** What searches and listings never miss, of a Drive that answers the queries it is sent. */
module Recall {
  import opened Outcomes
  import opened DriveItems
  import opened Verdicts
  import opened Scope
  import FolderWalk
  import Listing
  import Merge
  import Query
  import Search

  /** Whether an item mentions keywords: Drive's own judgement. */
  type Mentioning = (DriveItem, string) -> bool

  /** `xs` is exactly what Drive holds that meets every condition. */
  ghost predicate IsAnswer(items: Drive, terms: seq<Query.Term>, mentions: Mentioning, xs: seq<DriveItem>) {
    forall item :: item in xs <==> item.id in items && items[item.id] == item && Query.Matches(terms, item, mentions)
  }

  /** Whatever query is paged to its end without a flag was answered by what it says. */
  ghost predicate Faithful(items: Drive, lists: Listing.Drive, mentions: Mentioning) {
    forall query, orderBy, wanted, n, xs, terms ::
      Query.Parse(query) == Some(terms) ==>
      Listing.WholeListing(lists, Listing.FirstRequest(query, orderBy, wanted), n, xs) ==>
      IsAnswer(items, terms, mentions, xs)
  }

  // ---- There is such a Drive, whatever it holds.

  ghost function InSomeOrder(items: set<DriveItem>): (r: seq<DriveItem>)
    ensures forall item :: item in r <==> item in items
    decreases |items|
  {
    if items == {} then [] else
      var item :| item in items;
      [item] + InSomeOrder(items - {item})
  }

  ghost function Meeting(items: Drive, mentions: Mentioning, query: string): set<DriveItem> {
    match Query.Parse(query)
    case None => {}
    case Some(terms) => set id | id in items && Query.Matches(terms, items[id], mentions) :: items[id]
  }

  /** One page each, with everything that meets the query. */
  ghost function OnOnePage(items: Drive, mentions: Mentioning): Listing.Drive {
    (k, request: Listing.ListRequest) =>
      Listing.Response(InSomeOrder(Meeting(items, mentions, request.query)), false, None)
  }

  lemma OnOnePageIsFaithful(items: Drive, mentions: Mentioning)
    requires KeyedById(items)
    ensures Faithful(items, OnOnePage(items, mentions), mentions)
  {
    var lists := OnOnePage(items, mentions);
    forall query, orderBy, wanted, n, xs, terms |
      && Query.Parse(query) == Some(terms)
      && Listing.WholeListing(lists, Listing.FirstRequest(query, orderBy, wanted), n, xs)
      ensures IsAnswer(items, terms, mentions, xs)
    {
      var first := Listing.FirstRequest(query, orderBy, wanted);
      assert !Listing.HasToken(Listing.Page(lists, first, 0));
      var all := InSomeOrder(Meeting(items, mentions, query));
      assert Listing.Gathered(lists, first, 0) + Listing.Page(lists, first, 0).files == all;
      assert xs == Listing.Distinct(all);
      DistinctHasAll(items, all);
    }
  }

  /** Where one ID is one item, deduplication loses no item. */
  lemma DistinctHasAll(items: Drive, all: seq<DriveItem>)
    requires forall item :: item in all ==> item.id in items && items[item.id] == item
    ensures forall item :: item in Listing.Distinct(all) <==> item in all
  {
    Listing.DistinctIsFrom(all);
    Listing.KeptIds(all);
    forall item | item in all
      ensures item in Listing.Distinct(all)
    {
      var i :| 0 <= i < |all| && all[i] == item;
      assert Ids(all)[i] == item.id;
      assert item.id in Ids(Listing.Distinct(all));
      var j :| 0 <= j < |Ids(Listing.Distinct(all))| && Ids(Listing.Distinct(all))[j] == item.id;
      assert Listing.Distinct(all)[j] in all;
    }
  }

  // ---- Listings.

  /** A folder listing shows every untrashed folder there is, and nothing else. */
  lemma FoldersAreListedExactly(items: Drive, lists: Listing.Drive, mentions: Mentioning, xs: seq<DriveItem>)
    requires Faithful(items, lists, mentions)
    requires IsListing(lists, Query.FoldersQuery(), None, xs)
    ensures forall f :: f in xs <==>
              f.id in items && items[f.id] == f && f.mimeType == "application/vnd.google-apps.folder" && !f.trashed
  {
    Query.FoldersQueryReads();
    var n :| Listing.WholeListing(lists, Listing.FirstRequest(Query.FoldersQuery(), None, None), n, xs);
    var terms := [Query.TypeIs(Query.FOLDER), Query.Untrashed];
    assert IsAnswer(items, terms, mentions, xs);
    forall f
      ensures Query.Matches(terms, f, mentions) <==> f.mimeType == Query.FOLDER && !f.trashed
    {
      assert Query.Matches(terms, f, mentions) ==> Query.Holds(terms[0], f, mentions) && Query.Holds(terms[1], f, mentions);
    }
  }

  /** So the folder map is that of all folders of the Drive, as `Scope.Honest` takes it. */
  lemma ListedAreTheFolders(items: Drive, lists: Listing.Drive, mentions: Mentioning, xs: seq<DriveItem>)
    requires Faithful(items, lists, mentions) && KeyedById(items)
    requires IsListing(lists, Query.FoldersQuery(), None, xs)
    ensures FolderWalk.Listed(xs) == ListedFolders(items)
  {
    FoldersAreListedExactly(items, lists, mentions, xs);
    assert FOLDER_MIME_TYPE == "application/vnd.google-apps.folder";
  }

  ghost predicate IsChild(item: DriveItem, folderId: string, location: DriveLocation) {
    && item.parents == [folderId] && location.Contains(item.driveId) && !item.trashed
    && item.mimeType != "application/vnd.google-apps.shortcut"
  }

  /** The names a listing gives are exactly those of the untrashed items of the location, no
      shortcuts, that have this folder as their one parent; each is described by its own
      metadata, and placed below the folder. */
  lemma FolderIsListedExactly(
    scope: ScopedDrive, folderId: string, folderPath: string, r: seq<ScopedItem>, mentions: Mentioning)
    requires scope.AreChildren(folderId, folderPath, r)
    requires Faithful(scope.gateway.items, scope.gateway.lists, mentions)
    ensures forall s :: s in r <==> exists item: DriveItem ::
              && item.id in scope.gateway.items && scope.gateway.items[item.id] == item
              && IsChild(item, folderId, scope.location.value)
              && IsNamedAs(s, item, if folderId == scope.rootFolderId then item.name else folderPath + "/" + item.name)
  {
    var items, lists, location := scope.gateway.items, scope.gateway.lists, scope.location.value;
    var children :|
      && IsListing(lists, Query.ChildrenQuery(folderId), Some("name_natural"), children)
      && r == SafeChildren(children, folderId, scope.rootFolderId, folderPath, location);
    ChildrenAreAnswered(items, lists, mentions, folderId, children);
    SafeChildrenMeaning(children, folderId, scope.rootFolderId, folderPath, location);
    assert SHORTCUT_MIME_TYPE == "application/vnd.google-apps.shortcut";
    forall s
      ensures s in r <==> exists item: DriveItem ::
                && item.id in items && items[item.id] == item && IsChild(item, folderId, location)
                && IsNamedAs(s, item, if folderId == scope.rootFolderId then item.name else folderPath + "/" + item.name)
    {
      if s in r {
        var item: DriveItem :|
          && item in children && item.parents == [folderId] && location.Contains(item.driveId)
          && !item.trashed && item.mimeType != SHORTCUT_MIME_TYPE
          && s == ToScopedItem(item, ListedPath(scope.rootFolderId, folderId, folderPath, item.name));
        assert IsChild(item, folderId, location);
      }
      if item: DriveItem :|
        && item.id in items && items[item.id] == item && IsChild(item, folderId, location)
        && IsNamedAs(s, item, if folderId == scope.rootFolderId then item.name else folderPath + "/" + item.name)
      {
        assert item in children;
        assert s == ToScopedItem(item, ListedPath(scope.rootFolderId, folderId, folderPath, item.name));
      }
    }
  }

  ghost predicate IsNamedAs(s: ScopedItem, item: DriveItem, path: string) {
    && s.id == item.id && s.name == item.name && s.mimeType == item.mimeType && s.relativePath == path
    && s.modifiedTime == item.modifiedTime && s.size == item.size
  }

  lemma ChildrenAreAnswered(items: Drive, lists: Listing.Drive, mentions: Mentioning, folderId: string, children: seq<DriveItem>)
    requires Faithful(items, lists, mentions)
    requires IsListing(lists, Query.ChildrenQuery(folderId), Some("name_natural"), children)
    ensures forall item :: item in children <==>
              && item.id in items && items[item.id] == item
              && folderId in item.parents && !item.trashed && item.mimeType != "application/vnd.google-apps.shortcut"
  {
    Query.ChildrenQueryReads(folderId);
    var query := Query.ChildrenQuery(folderId);
    var n :| Listing.WholeListing(lists, Listing.FirstRequest(query, Some("name_natural"), None), n, children);
    assert IsAnswer(items, ChildTerms(folderId), mentions, children);
    forall item
      ensures Query.Matches(ChildTerms(folderId), item, mentions) <==>
              folderId in item.parents && !item.trashed && item.mimeType != Query.SHORTCUT
    {
      ChildMatches(item, folderId, mentions);
    }
  }

  function ChildTerms(folderId: string): seq<Query.Term> {
    [Query.Under([folderId]), Query.Untrashed, Query.TypeIsNot(Query.SHORTCUT)]
  }

  lemma ChildMatches(item: DriveItem, folderId: string, mentions: Mentioning)
    ensures Query.Matches(ChildTerms(folderId), item, mentions) <==>
            folderId in item.parents && !item.trashed && item.mimeType != Query.SHORTCUT
  {
    var terms := ChildTerms(folderId);
    assert Query.Matches(terms, item, mentions) ==>
        && Query.Holds(terms[0], item, mentions) && Query.Holds(terms[1], item, mentions)
        && Query.Holds(terms[2], item, mentions);
  }

  // ---- Searches.

  /** The pages an answer rests on. Where it is not `incomplete`, no budget ran out on any. */
  lemma PagesBehind(scope: ScopedDrive, used: FolderMap, keywords: string, limit: nat, r: SearchResult)
    returns (pages: seq<Listing.SearchPage>, fetched: seq<nat>)
    requires scope.location.Some? && scope.IsResult(used, keywords, limit, r) && !r.incomplete
    ensures Search.Answered(scope.gateway.lists, used.order, keywords, limit, pages, fetched)
    ensures r == ResultOf(pages, used.paths, scope.location.value, limit)
    ensures forall b :: 0 <= b < |pages| ==> !pages[b].pageBudgetExhausted && !pages[b].incomplete
  {
    pages, fetched :|
      && Search.Answered(scope.gateway.lists, used.order, keywords, limit, pages, fetched)
      && Search.AsksForAll(scope.gateway.lists, used.order, keywords, limit, pages)
      && r == ResultOf(pages, used.paths, scope.location.value, limit);
    forall b | 0 <= b < |pages|
      ensures !pages[b].pageBudgetExhausted && !pages[b].incomplete
    {
      assert Search.BatchAnswered(scope.gateway.lists, used.order, keywords, limit, b, pages[b], fetched[b]);
    }
  }

  /** End to end: an answer that is not `incomplete`, where every ranked hit is safe, is the
      first `limit` items of the merge of the complete rankings, and `truncated` says
      precisely whether more match. */
  lemma CompleteSearchIsExact(
    scope: ScopedDrive, used: FolderMap, keywords: string, limit: nat, r: SearchResult,
    totals: seq<nat>, rankings: seq<seq<DriveItem>>)
    requires scope.location.Some? && scope.IsResult(used, keywords, limit, r) && !r.incomplete
    requires |used.order| <= |rankings| * Search.PARENT_BATCH
    requires Search.CompleteRankings(scope.gateway.lists, used.order, keywords, limit, totals, rankings)
    requires forall b :: 0 <= b < |rankings| ==> Search.AllSafe(rankings[b], used.paths, scope.location.value)
    ensures var all := Merge.Merged(Search.Batches(rankings, used.paths, scope.location.value));
            && r.items == Scoped(Merge.UpTo(all, limit))
            && (r.truncated <==> |all| > limit)
  {
    var pages, fetched := PagesBehind(scope, used, keywords, limit, r);
    assert |rankings| > |pages| ==>
        Search.CompleteRanking(scope.gateway.lists, used.order, keywords, limit, |pages|, totals[|pages|], rankings[|pages|]);
    Search.NothingDroppedIsExact(
      scope.gateway.lists, used.order, keywords, limit, pages, fetched, totals, rankings, used.paths, scope.location.value);
  }

  /** Every folder of the map is asked about in some batch. */
  lemma SomeBatch(folderIds: seq<string>, m: nat, parent: string) returns (b: nat)
    requires parent in folderIds && |folderIds| <= m * Search.PARENT_BATCH
    ensures b < m && b * Search.PARENT_BATCH <= |folderIds| && parent in Search.ParentBatch(folderIds, b)
  {
    var i :| 0 <= i < |folderIds| && folderIds[i] == parent;
    b := i / Search.PARENT_BATCH;
    var k := i % Search.PARENT_BATCH;
    assert Search.ParentBatch(folderIds, b)[k] == folderIds[b * Search.PARENT_BATCH + k];
  }

  /** One batch, answered to its end: everything that meets the query, and nothing else. */
  lemma BatchIsAnswer(
    items: Drive, lists: Listing.Drive, mentions: Mentioning, folderIds: seq<string>, keywords: string, limit: nat,
    b: nat, page: Listing.SearchPage, fetched: nat)
    requires Faithful(items, lists, mentions)
    requires Search.BatchAnswered(lists, folderIds, keywords, limit, b, page, fetched)
    requires !page.hasMore && !page.incomplete
    ensures IsAnswer(items, SearchTerms(Search.ParentBatch(folderIds, b), keywords), mentions, page.items)
  {
    var parents := Search.ParentBatch(folderIds, b);
    var query := Query.SearchQuery(parents, keywords).value;
    Query.ParentsClauseRoundTrip(parents);
    Query.SearchQueryReads(parents, keywords);
    PageIsWhole(lists, query, limit, page, fetched);
  }

  lemma PageIsWhole(lists: Listing.Drive, query: string, limit: nat, page: Listing.SearchPage, n: nat)
    requires Listing.Answers(
      lists, Listing.FirstRequest(query, None, Some(limit + 1)), Listing.SEARCH_PAGE_BUDGET, Some(limit + 1), page, n)
    requires !page.hasMore && !page.incomplete
    ensures Listing.WholeListing(lists, Listing.FirstRequest(query, None, Some(limit + 1)), n, page.items)
  {
    var wanted: Option<nat> := Some(limit + 1);
    var first := Listing.FirstRequest(query, None, wanted);
    forall k | 0 <= k < n - 1
      ensures Listing.HasToken(Listing.Page(lists, first, k))
    {
      assert !Listing.Stops(lists, first, wanted, k + 1);
    }
  }

  function SearchTerms(parents: seq<string>, keywords: string): seq<Query.Term> {
    [Query.Under(parents), Query.Untrashed, Query.TypeIsNot(Query.FOLDER), Query.TypeIsNot(Query.SHORTCUT),
     Query.Mentions(keywords)]
  }

  /** A document a search is for: it mentions the keywords, is untrashed, in the location,
      neither folder nor shortcut, and has one parent, a folder of the map. */
  ghost predicate IsSought(
    item: DriveItem, paths: map<string, string>, location: DriveLocation, keywords: string, mentions: Mentioning)
  {
    && mentions(item, keywords) && !item.trashed && location.Contains(item.driveId)
    && item.mimeType != "application/vnd.google-apps.folder" && item.mimeType != "application/vnd.google-apps.shortcut"
    && |item.parents| == 1 && item.parents[0] in paths
  }

  lemma SoughtMatches(
    item: DriveItem, paths: map<string, string>, location: DriveLocation, keywords: string, mentions: Mentioning,
    parents: seq<string>)
    requires IsSought(item, paths, location, keywords, mentions) && item.parents[0] in parents
    ensures Query.Matches(SearchTerms(parents, keywords), item, mentions)
  {
    assert item.parents[0] in item.parents;
  }

  /** A search that is neither truncated nor incomplete finds every document it is for: all
      that mention the keywords in the folders of the map, under their own metadata. */
  lemma SearchFindsEverything(
    scope: ScopedDrive, used: FolderMap, keywords: string, limit: nat, r: SearchResult, mentions: Mentioning, id: string)
    returns (k: nat)
    requires scope.location.Some? && scope.IsResult(used, keywords, limit, r) && !r.incomplete && !r.truncated
    requires FolderWalk.Ordered(used.paths, used.order)
    requires Faithful(scope.gateway.items, scope.gateway.lists, mentions) && KeyedById(scope.gateway.items)
    requires id in scope.gateway.items
    requires IsSought(scope.gateway.items[id], used.paths, scope.location.value, keywords, mentions)
    ensures var item := scope.gateway.items[id]; var path := used.paths[item.parents[0]];
            && k < |r.items|
            && IsNamedAs(r.items[k], item, if path == "." then item.name else path + "/" + item.name)
  {
    var item, lists, location := scope.gateway.items[id], scope.gateway.lists, scope.location.value;
    var pages, fetched := AllPagesBehind(scope, used, keywords, limit, r);
    k := SoughtIsMerged(scope.gateway.items, lists, mentions, used, location, keywords, limit, pages, fetched, item);
  }

  /** An answer that is not `truncated` either rests on pages read to their end, and is all
      there is on them. */
  lemma AllPagesBehind(scope: ScopedDrive, used: FolderMap, keywords: string, limit: nat, r: SearchResult)
    returns (pages: seq<Listing.SearchPage>, fetched: seq<nat>)
    requires scope.location.Some? && scope.IsResult(used, keywords, limit, r) && !r.incomplete && !r.truncated
    ensures Search.Answered(scope.gateway.lists, used.order, keywords, limit, pages, fetched)
    ensures forall b :: 0 <= b < |pages| ==> !pages[b].hasMore && !pages[b].incomplete
    ensures r.items == Scoped(Merge.Merged(Search.Batches(Search.ItemsOf(pages), used.paths, scope.location.value)))
  {
    pages, fetched := PagesBehind(scope, used, keywords, limit, r);
    var all := Merge.Merged(Search.Batches(Search.ItemsOf(pages), used.paths, scope.location.value));
    assert Merge.UpTo(all, limit) == all;
  }

  lemma SoughtIsMerged(
    items: Drive, lists: Listing.Drive, mentions: Mentioning, used: FolderMap, location: DriveLocation,
    keywords: string, limit: nat, pages: seq<Listing.SearchPage>, fetched: seq<nat>, item: DriveItem)
    returns (k: nat)
    requires Search.Answered(lists, used.order, keywords, limit, pages, fetched)
    requires forall b :: 0 <= b < |pages| ==> !pages[b].hasMore && !pages[b].incomplete
    requires Faithful(items, lists, mentions) && FolderWalk.Ordered(used.paths, used.order)
    requires item.id in items && items[item.id] == item && IsSought(item, used.paths, location, keywords, mentions)
    ensures var all := Merge.Merged(Search.Batches(Search.ItemsOf(pages), used.paths, location));
            && k < |all|
            && all[k] == Merge.Hit(item, ChildPath(used.paths[item.parents[0]], item.name))
  {
    var b := SoughtIsOnAPage(items, lists, mentions, used, location, keywords, limit, pages, fetched, item);
    k := FoundIsMerged(pages, used.paths, location, b, item);
    MergedIsDrives(items, lists, mentions, used, location, keywords, limit, pages, fetched, k);
  }

  lemma SoughtIsOnAPage(
    items: Drive, lists: Listing.Drive, mentions: Mentioning, used: FolderMap, location: DriveLocation,
    keywords: string, limit: nat, pages: seq<Listing.SearchPage>, fetched: seq<nat>, item: DriveItem)
    returns (b: nat)
    requires Search.Answered(lists, used.order, keywords, limit, pages, fetched)
    requires forall b :: 0 <= b < |pages| ==> !pages[b].hasMore && !pages[b].incomplete
    requires Faithful(items, lists, mentions) && FolderWalk.Ordered(used.paths, used.order)
    requires item.id in items && items[item.id] == item && IsSought(item, used.paths, location, keywords, mentions)
    ensures b < |pages| && item in pages[b].items
  {
    b := SomeBatch(used.order, |pages|, item.parents[0]);
    BatchIsAnswer(items, lists, mentions, used.order, keywords, limit, b, pages[b], fetched[b]);
    SoughtMatches(item, used.paths, location, keywords, mentions, Search.ParentBatch(used.order, b));
  }

  /** What is merged is what Drive holds, with the path its parent gives it. */
  lemma MergedIsDrives(
    items: Drive, lists: Listing.Drive, mentions: Mentioning, used: FolderMap, location: DriveLocation,
    keywords: string, limit: nat, pages: seq<Listing.SearchPage>, fetched: seq<nat>, k: nat)
    requires Search.Answered(lists, used.order, keywords, limit, pages, fetched)
    requires forall b :: 0 <= b < |pages| ==> !pages[b].hasMore && !pages[b].incomplete
    requires Faithful(items, lists, mentions)
    requires k < |Merge.Merged(Search.Batches(Search.ItemsOf(pages), used.paths, location))|
    ensures var hit := Merge.Merged(Search.Batches(Search.ItemsOf(pages), used.paths, location))[k];
            && hit.item.id in items && items[hit.item.id] == hit.item
            && |hit.item.parents| == 1 && hit.item.parents[0] in used.paths
            && hit.relativePath == ChildPath(used.paths[hit.item.parents[0]], hit.item.name)
  {
    var batches := Search.Batches(Search.ItemsOf(pages), used.paths, location);
    var b := Merge.MergedAreHits(batches, k);
    Search.SafeHitsAreSafe(pages[b].items, used.paths, location);
    BatchIsAnswer(items, lists, mentions, used.order, keywords, limit, b, pages[b], fetched[b]);
  }

  lemma FoundIsMerged(
    pages: seq<Listing.SearchPage>, paths: map<string, string>, location: DriveLocation, b: nat, item: DriveItem)
    returns (k: nat)
    requires b < |pages| && item in pages[b].items && IsSafeSearchResult(item, paths, location)
    ensures var all := Merge.Merged(Search.Batches(Search.ItemsOf(pages), paths, location));
            k < |all| && all[k].item.id == item.id
  {
    var batches := Search.Batches(Search.ItemsOf(pages), paths, location);
    Search.SafeHitsAreSafe(pages[b].items, paths, location);
    var hit := Merge.Hit(item, ChildPath(paths[item.parents[0]], item.name));
    assert hit in batches[b];
    var rank :| 0 <= rank < |batches[b]| && batches[b][rank] == hit;
    k := Merge.EveryIdSurvives(batches, Merge.Cell(rank, b));
  }
}
