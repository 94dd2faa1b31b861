/** Keyword search over batches of parents, each asked for one hit more than the limit. */
module Search {
  import opened Outcomes
  import opened DriveItems
  import opened Merge
  import Listing
  import Query

  const PARENT_BATCH: nat := 400

  /** The hits of one page that pass the safety filter, each with its path. */
  function SafeHits(items: seq<DriveItem>, paths: map<string, string>, location: DriveLocation): Batch {
    if items == [] then [] else
      var item := items[|items| - 1];
      var front := SafeHits(items[..|items| - 1], paths, location);
      if IsSafeSearchResult(item, paths, location)
      then front + [Hit(item, ChildPath(paths[item.parents[0]], item.name))]
      else front
  }

  /** Every hit is an item of the page that is safe, with the path its parent gives it. */
  lemma {:induction false} SafeHitsAreSafe(items: seq<DriveItem>, paths: map<string, string>, location: DriveLocation)
    ensures forall h :: h in SafeHits(items, paths, location) <==>
              && h.item in items
              && location.Contains(h.item.driveId) && |h.item.parents| == 1 && h.item.parents[0] in paths
              && !h.item.trashed && h.item.mimeType != FOLDER_MIME_TYPE && h.item.mimeType != SHORTCUT_MIME_TYPE
              && h.relativePath == ChildPath(paths[h.item.parents[0]], h.item.name)
  {
    if items != [] {
      var n := |items| - 1;
      SafeHitsAreSafe(items[..n], paths, location);
      assert forall x :: x in items <==> x in items[..n] || x == items[n];
    }
  }

  ghost predicate AllSafe(items: seq<DriveItem>, paths: map<string, string>, location: DriveLocation) {
    forall i :: 0 <= i < |items| ==> IsSafeSearchResult(items[i], paths, location)
  }

  /** When nothing is dropped, hit i is item i. */
  lemma {:induction false} AllSafeHits(items: seq<DriveItem>, paths: map<string, string>, location: DriveLocation)
    requires AllSafe(items, paths, location)
    ensures |SafeHits(items, paths, location)| == |items|
    ensures forall i :: 0 <= i < |items| ==>
              SafeHits(items, paths, location)[i] == Hit(items[i], ChildPath(paths[items[i].parents[0]], items[i].name))
  {
    if items != [] {
      AllSafeHits(items[..|items| - 1], paths, location);
    }
  }

  lemma {:induction false} SafeHitsOfPrefix(
    part: seq<DriveItem>, whole: seq<DriveItem>, paths: map<string, string>, location: DriveLocation)
    requires part <= whole
    ensures SafeHits(part, paths, location) <= SafeHits(whole, paths, location)
  {
    if part != whole {
      SafeHitsOfPrefix(part, whole[..|whole| - 1], paths, location);
    }
  }

  ghost predicate DistinctHits(hits: Batch) {
    forall i, j :: 0 <= i < j < |hits| ==> hits[i].item.id != hits[j].item.id
  }

  lemma {:induction false} SafeHitsAreDistinct(items: seq<DriveItem>, paths: map<string, string>, location: DriveLocation)
    requires DistinctIds(items)
    ensures DistinctHits(SafeHits(items, paths, location))
  {
    if items != [] {
      var n := |items| - 1;
      SafeHitsAreDistinct(items[..n], paths, location);
      SafeHitsAreSafe(items[..n], paths, location);
      var hits := SafeHits(items[..n], paths, location);
      forall i | 0 <= i < |hits|
        ensures hits[i].item.id != items[n].id
      {
        assert hits[i] in hits;
        assert hits[i].item in items[..n];
      }
    }
  }

  /** The batches of one answer, a page per batch of parents. */
  function Batches(pages: seq<seq<DriveItem>>, paths: map<string, string>, location: DriveLocation): (r: seq<Batch>)
    ensures |r| == |pages|
    ensures forall b :: 0 <= b < |pages| ==> r[b] == SafeHits(pages[b], paths, location)
  {
    seq(|pages|, b requires 0 <= b < |pages| => SafeHits(pages[b], paths, location))
  }

  function ItemsOf(pages: seq<Listing.SearchPage>): (r: seq<seq<DriveItem>>)
    ensures |r| == |pages|
    ensures forall b :: 0 <= b < |pages| ==> r[b] == pages[b].items
  {
    seq(|pages|, b requires 0 <= b < |pages| => pages[b].items)
  }

  /** The parents of batch `b`: `folder_ids[400 * b : 400 * b + 400]`. */
  function ParentBatch(folderIds: seq<string>, b: nat): seq<string>
    requires b * PARENT_BATCH <= |folderIds|
  {
    UpTo(folderIds[b * PARENT_BATCH..], PARENT_BATCH)
  }

  /** Batch `b` is one search request, paged until it had `limit + 1` hits or no more. */
  ghost predicate BatchAnswered(
    drive: Listing.Drive, folderIds: seq<string>, keywords: string, limit: nat,
    b: nat, page: Listing.SearchPage, fetched: nat)
  {
    && b * PARENT_BATCH < |folderIds|
    && var query := Query.SearchQuery(ParentBatch(folderIds, b), keywords);
    && query.Ok?
    && Listing.Answers(
         drive, Listing.FirstRequest(query.value, None, Some(limit + 1)), Listing.SEARCH_PAGE_BUDGET,
         Some(limit + 1), page, fetched)
  }

  /** The first `|pages|` batches have been answered. */
  ghost predicate AnsweredSoFar(
    drive: Listing.Drive, folderIds: seq<string>, keywords: string, limit: nat,
    pages: seq<Listing.SearchPage>, fetched: seq<nat>)
  {
    && |pages| == |fetched|
    && |pages| * PARENT_BATCH < |folderIds| + PARENT_BATCH
    && forall b :: 0 <= b < |pages| ==> BatchAnswered(drive, folderIds, keywords, limit, b, pages[b], fetched[b])
  }

  lemma OneBatchMore(
    drive: Listing.Drive, folderIds: seq<string>, keywords: string, limit: nat,
    pages: seq<Listing.SearchPage>, fetched: seq<nat>, page: Listing.SearchPage, n: nat)
    requires AnsweredSoFar(drive, folderIds, keywords, limit, pages, fetched)
    requires BatchAnswered(drive, folderIds, keywords, limit, |pages|, page, n)
    ensures AnsweredSoFar(drive, folderIds, keywords, limit, pages + [page], fetched + [n])
  {
  }

  ghost predicate Answered(
    drive: Listing.Drive, folderIds: seq<string>, keywords: string, limit: nat,
    pages: seq<Listing.SearchPage>, fetched: seq<nat>)
  {
    AnsweredSoFar(drive, folderIds, keywords, limit, pages, fetched) && |folderIds| <= |pages| * PARENT_BATCH
  }

  // ---- No folder is left out.

  /** There is one query for each page answered; each reads back as the keywords and four
      hundred folders, the last one as at most so many; and together they name every folder,
      in order. */
  ghost predicate AsksForAll(
    drive: Listing.Drive, folderIds: seq<string>, keywords: string, limit: nat, pages: seq<Listing.SearchPage>)
  {
    exists queries, parents :: Listing.Flat(parents) == folderIds && Asks(drive, keywords, limit, pages, queries, parents)
  }

  ghost predicate Asks(
    drive: Listing.Drive, keywords: string, limit: nat, pages: seq<Listing.SearchPage>,
    queries: seq<string>, parents: seq<seq<string>>)
  {
    && |queries| == |pages| && |parents| == |pages|
    && (forall b :: 0 <= b < |pages| ==> AsksFor(drive, queries[b], parents[b], keywords, limit, pages[b]))
    && (forall b :: 0 <= b < |pages| - 1 ==> |parents[b]| == 400)
  }

  ghost predicate AsksFor(
    drive: Listing.Drive, query: string, parents: seq<string>, keywords: string, limit: nat, page: Listing.SearchPage)
  {
    && 1 <= |parents| <= 400
    && Query.ParseSearchQuery(query) == Some((parents, keywords))
    && Listing.IsTheConclusion(drive, query, None, Some(limit + 1), 5, page)
  }

  function Parents(folderIds: seq<string>, m: nat): (r: seq<seq<string>>)
    requires m * PARENT_BATCH < |folderIds| + PARENT_BATCH
    ensures |r| == m && forall b :: 0 <= b < m ==> b * PARENT_BATCH <= |folderIds| && r[b] == ParentBatch(folderIds, b)
  {
    seq(m, b requires 0 <= b < m => assert b * PARENT_BATCH <= |folderIds|; ParentBatch(folderIds, b))
  }

  lemma {:induction false} ParentsCover(folderIds: seq<string>, m: nat)
    requires m * PARENT_BATCH < |folderIds| + PARENT_BATCH
    ensures Listing.Flat(Parents(folderIds, m)) == UpTo(folderIds, m * PARENT_BATCH)
  {
    if m > 0 {
      ParentsCover(folderIds, m - 1);
      var n := (m - 1) * PARENT_BATCH;
      assert Parents(folderIds, m)[..m - 1] == Parents(folderIds, m - 1);
      assert ParentBatch(folderIds, m - 1) == UpTo(folderIds[n..], PARENT_BATCH);
      assert UpTo(folderIds, n) == folderIds[..n];
      assert UpTo(folderIds, m * PARENT_BATCH) == folderIds[..n] + UpTo(folderIds[n..], PARENT_BATCH);
    }
  }

  lemma AnsweredAsksForAll(
    drive: Listing.Drive, folderIds: seq<string>, keywords: string, limit: nat,
    pages: seq<Listing.SearchPage>, fetched: seq<nat>)
    requires Answered(drive, folderIds, keywords, limit, pages, fetched)
    ensures AsksForAll(drive, folderIds, keywords, limit, pages)
  {
    ParentsCover(folderIds, |pages|);
    assert UpTo(folderIds, |pages| * PARENT_BATCH) == folderIds;
    BatchesAsk(drive, folderIds, keywords, limit, pages, fetched);
  }

  function Queries(folderIds: seq<string>, m: nat, keywords: string): (r: seq<string>)
    ensures |r| == m && forall b :: 0 <= b < m ==> r[b] == QueryOf(folderIds, b, keywords)
  {
    seq(m, b requires 0 <= b < m => QueryOf(folderIds, b, keywords))
  }

  lemma BatchesAsk(
    drive: Listing.Drive, folderIds: seq<string>, keywords: string, limit: nat,
    pages: seq<Listing.SearchPage>, fetched: seq<nat>)
    requires AnsweredSoFar(drive, folderIds, keywords, limit, pages, fetched)
    ensures Asks(drive, keywords, limit, pages, Queries(folderIds, |pages|, keywords), Parents(folderIds, |pages|))
  {
    var queries, parents := Queries(folderIds, |pages|, keywords), Parents(folderIds, |pages|);
    forall b | 0 <= b < |pages|
      ensures AsksFor(drive, queries[b], parents[b], keywords, limit, pages[b])
    {
      assert BatchAnswered(drive, folderIds, keywords, limit, b, pages[b], fetched[b]);
      BatchAsksFor(drive, folderIds, keywords, limit, b, pages[b], fetched[b]);
    }
    forall b | 0 <= b < |pages| - 1
      ensures |parents[b]| == 400
    {
      assert BatchAnswered(drive, folderIds, keywords, limit, b + 1, pages[b + 1], fetched[b + 1]);
      assert (b + 1) * PARENT_BATCH < |folderIds|;
    }
  }

  function QueryOf(folderIds: seq<string>, b: nat, keywords: string): string {
    if b * PARENT_BATCH <= |folderIds| && Query.SearchQuery(ParentBatch(folderIds, b), keywords).Ok?
    then Query.SearchQuery(ParentBatch(folderIds, b), keywords).value else ""
  }

  lemma BatchAsksFor(
    drive: Listing.Drive, folderIds: seq<string>, keywords: string, limit: nat,
    b: nat, page: Listing.SearchPage, fetched: nat)
    requires BatchAnswered(drive, folderIds, keywords, limit, b, page, fetched)
    ensures AsksFor(drive, QueryOf(folderIds, b, keywords), ParentBatch(folderIds, b), keywords, limit, page)
  {
    var parents := ParentBatch(folderIds, b);
    Query.ParentsClauseRoundTrip(parents);
    Query.SearchQueryRoundTrip(parents, keywords);
    Listing.AnswersAreExchanged(
      drive, Query.SearchQuery(parents, keywords).value, None, Some(limit + 1), Listing.SEARCH_PAGE_BUDGET, page, fetched);
  }

  function HasMore(pages: seq<Listing.SearchPage>): bool {
    exists b :: 0 <= b < |pages| && pages[b].hasMore
  }

  function Incomplete(pages: seq<Listing.SearchPage>): bool {
    exists b :: 0 <= b < |pages| && pages[b].incomplete
  }

  /** One more page: one more batch, and the flags stick. */
  lemma OnePageMore(
    pages: seq<Listing.SearchPage>, page: Listing.SearchPage, paths: map<string, string>, location: DriveLocation)
    ensures Batches(ItemsOf(pages + [page]), paths, location) ==
            Batches(ItemsOf(pages), paths, location) + [SafeHits(page.items, paths, location)]
    ensures HasMore(pages + [page]) == (HasMore(pages) || page.hasMore)
    ensures Incomplete(pages + [page]) == (Incomplete(pages) || page.incomplete)
  {
    var more := pages + [page];
    assert more[|pages|] == page && forall b :: 0 <= b < |pages| ==> more[b] == pages[b];
  }

  /** The inner loop of `search`. */
  method CollectSafeHits(items: seq<DriveItem>, paths: map<string, string>, location: DriveLocation)
    returns (batch: Batch)
    ensures batch == SafeHits(items, paths, location)
    ensures forall h :: h in batch <==>
              && h.item in items
              && location.Contains(h.item.driveId) && |h.item.parents| == 1 && h.item.parents[0] in paths
              && !h.item.trashed && h.item.mimeType != FOLDER_MIME_TYPE && h.item.mimeType != SHORTCUT_MIME_TYPE
              && h.relativePath == ChildPath(paths[h.item.parents[0]], h.item.name)
  {
    batch := [];
    for k := 0 to |items|
      invariant batch == SafeHits(items[..k], paths, location)
    {
      assert items[..k + 1][..k] == items[..k];
      var item := items[k];
      if !IsSafeSearchResult(item, paths, location) {
        continue;
      }
      batch := batch + [Hit(item, ChildPath(paths[item.parents[0]], item.name))];
    }
    assert items[..|items|] == items;
    SafeHitsAreSafe(items, paths, location);
  }

  function Truncated(pages: seq<Listing.SearchPage>, paths: map<string, string>, location: DriveLocation, limit: nat): bool {
    |Merged(Batches(ItemsOf(pages), paths, location))| > limit || HasMore(pages)
  }

  // ---- Against the complete rankings.

  /** `total` pages are all that Drive has for batch `b`, and `ranking` is everything on
      them, each item where it is ranked first. */
  ghost predicate CompleteRanking(
    drive: Listing.Drive, folderIds: seq<string>, keywords: string, limit: nat,
    b: nat, total: nat, ranking: seq<DriveItem>)
  {
    && b * PARENT_BATCH < |folderIds|
    && var query := Query.SearchQuery(ParentBatch(folderIds, b), keywords);
    && query.Ok? && total > 0
    && var first := Listing.FirstRequest(query.value, None, Some(limit + 1));
    && (forall k :: 0 <= k < total - 1 ==> Listing.HasToken(Listing.Page(drive, first, k)))
    && !Listing.HasToken(Listing.Page(drive, first, total - 1))
    && ranking == Listing.Distinct(Listing.Gathered(drive, first, total))
  }

  /** One batch: what was fetched is a prefix of the complete ranking, and all of it when no
      more was offered. */
  lemma BatchIsPrefix(
    drive: Listing.Drive, folderIds: seq<string>, keywords: string, limit: nat, b: nat,
    page: Listing.SearchPage, fetched: nat, total: nat, ranking: seq<DriveItem>)
    requires BatchAnswered(drive, folderIds, keywords, limit, b, page, fetched)
    requires CompleteRanking(drive, folderIds, keywords, limit, b, total, ranking)
    ensures page.items <= ranking && DistinctIds(ranking)
    ensures !page.hasMore ==> page.items == ranking
    ensures page.pageBudgetExhausted ==> page.hasMore
  {
    var query := Query.SearchQuery(ParentBatch(folderIds, b), keywords).value;
    var wanted: Option<nat> := Some(limit + 1);
    var first := Listing.FirstRequest(query, None, wanted);
    forall k | 0 <= k < fetched - 1
      ensures Listing.HasToken(Listing.Page(drive, first, k))
    {
      assert !Listing.Stops(drive, first, wanted, k + 1);
    }
    PagesFitIn(drive, first, fetched, total);
    Listing.GatheredPrefix(drive, first, fetched, total);
    Listing.KeptIds(Listing.Gathered(drive, first, total));
  }

  /** With pages to spare it is long enough. */
  lemma BatchIsEnough(
    drive: Listing.Drive, folderIds: seq<string>, keywords: string, limit: nat, b: nat,
    page: Listing.SearchPage, fetched: nat)
    requires BatchAnswered(drive, folderIds, keywords, limit, b, page, fetched)
    requires !page.pageBudgetExhausted
    ensures |page.items| > limit || !page.hasMore
  {
    var query := Query.SearchQuery(ParentBatch(folderIds, b), keywords).value;
    var wanted: Option<nat> := Some(limit + 1);
    Listing.WantedStopsFirst(
      drive, Listing.FirstRequest(query, None, wanted), Listing.SEARCH_PAGE_BUDGET, wanted, page, fetched);
  }

  /** Pages all followed by more are among all there are. */
  lemma PagesFitIn(drive: Listing.Drive, first: Listing.ListRequest, fetched: nat, total: nat)
    requires fetched > 0 && total > 0
    requires forall k :: 0 <= k < fetched - 1 ==> Listing.HasToken(Listing.Page(drive, first, k))
    requires forall k :: 0 <= k < total - 1 ==> Listing.HasToken(Listing.Page(drive, first, k))
    requires !Listing.HasToken(Listing.Page(drive, first, total - 1))
    ensures fetched <= total
    ensures !Listing.HasToken(Listing.Page(drive, first, fetched - 1)) <==> fetched == total
  {
  }

  ghost predicate CompleteRankings(
    drive: Listing.Drive, folderIds: seq<string>, keywords: string, limit: nat,
    totals: seq<nat>, rankings: seq<seq<DriveItem>>)
  {
    && |totals| == |rankings|
    && forall b :: 0 <= b < |rankings| ==>
         CompleteRanking(drive, folderIds, keywords, limit, b, totals[b], rankings[b])
  }

  /** Every batch was answered, and `rankings` is all that Drive has for each. */
  ghost predicate Searched(
    drive: Listing.Drive, folderIds: seq<string>, keywords: string, limit: nat,
    pages: seq<Listing.SearchPage>, fetched: seq<nat>, totals: seq<nat>, rankings: seq<seq<DriveItem>>)
  {
    && Answered(drive, folderIds, keywords, limit, pages, fetched)
    && |rankings| == |pages|
    && CompleteRankings(drive, folderIds, keywords, limit, totals, rankings)
  }

  /** The safety filter left `n` hits of the page, or the page was all there is. */
  predicate Kept(page: Listing.SearchPage, paths: map<string, string>, location: DriveLocation, n: nat) {
    !page.hasMore || |SafeHits(page.items, paths, location)| >= n
  }

  lemma BatchesAreEnough(
    drive: Listing.Drive, folderIds: seq<string>, keywords: string, limit: nat,
    pages: seq<Listing.SearchPage>, fetched: seq<nat>, totals: seq<nat>, rankings: seq<seq<DriveItem>>,
    paths: map<string, string>, location: DriveLocation, b: nat)
    requires Searched(drive, folderIds, keywords, limit, pages, fetched, totals, rankings)
    requires b < |pages|
    ensures var given, complete := SafeHits(pages[b].items, paths, location), SafeHits(rankings[b], paths, location);
            && given <= complete
            && (!pages[b].hasMore ==> given == complete)
            && DistinctHits(complete)
    ensures AllSafe(rankings[b], paths, location) && !pages[b].pageBudgetExhausted ==>
              Kept(pages[b], paths, location, limit + 1)
  {
    assert BatchAnswered(drive, folderIds, keywords, limit, b, pages[b], fetched[b]);
    assert CompleteRanking(drive, folderIds, keywords, limit, b, totals[b], rankings[b]);
    BatchIsPrefix(drive, folderIds, keywords, limit, b, pages[b], fetched[b], totals[b], rankings[b]);
    SafeHitsOfPrefix(pages[b].items, rankings[b], paths, location);
    SafeHitsAreDistinct(rankings[b], paths, location);
    if AllSafe(rankings[b], paths, location) && !pages[b].pageBudgetExhausted {
      BatchIsEnough(drive, folderIds, keywords, limit, b, pages[b], fetched[b]);
      AllSafeHits(pages[b].items, paths, location);
    }
  }

  function Cut(pages: seq<Listing.SearchPage>): (r: seq<bool>)
    ensures |r| == |pages| && forall b :: 0 <= b < |pages| ==> r[b] == pages[b].hasMore
  {
    seq(|pages|, b requires 0 <= b < |pages| => pages[b].hasMore)
  }

  lemma PagesAreEnough(
    drive: Listing.Drive, folderIds: seq<string>, keywords: string, limit: nat,
    pages: seq<Listing.SearchPage>, fetched: seq<nat>, totals: seq<nat>, rankings: seq<seq<DriveItem>>,
    paths: map<string, string>, location: DriveLocation, n: nat)
    requires Searched(drive, folderIds, keywords, limit, pages, fetched, totals, rankings)
    requires forall b :: 0 <= b < |pages| ==> Kept(pages[b], paths, location, n)
    ensures var given, complete := Batches(ItemsOf(pages), paths, location), Batches(rankings, paths, location);
            Enough(given, complete, n) && DistinctInBatches(complete)
  {
    forall b | 0 <= b < |pages|
      ensures var given, complete := SafeHits(pages[b].items, paths, location), SafeHits(rankings[b], paths, location);
              && given <= complete
              && (!pages[b].hasMore ==> given == complete)
              && DistinctHits(complete)
    {
      BatchesAreEnough(drive, folderIds, keywords, limit, pages, fetched, totals, rankings, paths, location, b);
    }
  }

  /** Asking each batch for `limit + 1` hits is exact where the safety filter leaves `limit`
      hits of every batch that had more: the answer is then the first `limit` items of the
      rank merge of the complete rankings. */
  lemma SearchIsExact(
    drive: Listing.Drive, folderIds: seq<string>, keywords: string, limit: nat,
    pages: seq<Listing.SearchPage>, fetched: seq<nat>, totals: seq<nat>, rankings: seq<seq<DriveItem>>,
    paths: map<string, string>, location: DriveLocation)
    requires Searched(drive, folderIds, keywords, limit, pages, fetched, totals, rankings)
    requires forall b :: 0 <= b < |pages| ==> Kept(pages[b], paths, location, limit)
    ensures UpTo(Merged(Batches(ItemsOf(pages), paths, location)), limit)
            == UpTo(Merged(Batches(rankings, paths, location)), limit)
  {
    PagesAreEnough(drive, folderIds, keywords, limit, pages, fetched, totals, rankings, paths, location, limit);
    TruncationKeepsTheTop(Batches(ItemsOf(pages), paths, location), Batches(rankings, paths, location), limit);
  }

  /** With one more left, `truncated` says precisely that more than `limit` distinct items
      match. */
  lemma TruncatedIsExact(
    drive: Listing.Drive, folderIds: seq<string>, keywords: string, limit: nat,
    pages: seq<Listing.SearchPage>, fetched: seq<nat>, totals: seq<nat>, rankings: seq<seq<DriveItem>>,
    paths: map<string, string>, location: DriveLocation)
    requires Searched(drive, folderIds, keywords, limit, pages, fetched, totals, rankings)
    requires forall b :: 0 <= b < |pages| ==> Kept(pages[b], paths, location, limit + 1)
    ensures Truncated(pages, paths, location, limit) <==> |Merged(Batches(rankings, paths, location))| > limit
  {
    PagesAreEnough(drive, folderIds, keywords, limit, pages, fetched, totals, rankings, paths, location, limit + 1);
    var given, complete := Batches(ItemsOf(pages), paths, location), Batches(rankings, paths, location);
    OneMoreThanTheLimit(given, complete, Cut(pages), limit);
    assert HasMore(pages) <==> exists b :: 0 <= b < |Cut(pages)| && Cut(pages)[b];
  }

  /** In particular when every ranked hit passes the filter. */
  lemma NothingDroppedIsExact(
    drive: Listing.Drive, folderIds: seq<string>, keywords: string, limit: nat,
    pages: seq<Listing.SearchPage>, fetched: seq<nat>, totals: seq<nat>, rankings: seq<seq<DriveItem>>,
    paths: map<string, string>, location: DriveLocation)
    requires Searched(drive, folderIds, keywords, limit, pages, fetched, totals, rankings)
    requires forall b :: 0 <= b < |pages| ==> !pages[b].pageBudgetExhausted && AllSafe(rankings[b], paths, location)
    ensures var answer, all := Merged(Batches(ItemsOf(pages), paths, location)), Merged(Batches(rankings, paths, location));
            && UpTo(answer, limit) == UpTo(all, limit)
            && (Truncated(pages, paths, location, limit) <==> |all| > limit)
  {
    forall b | 0 <= b < |pages|
      ensures Kept(pages[b], paths, location, limit + 1)
    {
      BatchesAreEnough(drive, folderIds, keywords, limit, pages, fetched, totals, rankings, paths, location, b);
    }
    SearchIsExact(drive, folderIds, keywords, limit, pages, fetched, totals, rankings, paths, location);
    TruncatedIsExact(drive, folderIds, keywords, limit, pages, fetched, totals, rankings, paths, location);
  }

  /** Where too little is left, the answer can fall short: a safe hit ranked below two with
      two parents each, which the filter drops, is never fetched. The answer then does say
      `truncated`, although only one item matches. */
  lemma DroppedHitsLeaveAHole(folderId: string, keywords: string, location: DriveLocation)
    returns (drive: Listing.Drive, page: Listing.SearchPage, ranking: seq<DriveItem>)
    ensures var paths := map[folderId := "."];
            && BatchAnswered(drive, [folderId], keywords, 1, 0, page, 1) && !page.pageBudgetExhausted
            && CompleteRanking(drive, [folderId], keywords, 1, 0, 2, ranking)
            && Merged(Batches(ItemsOf([page]), paths, location)) == []
            && |Merged(Batches([ranking], paths, location))| == 1
            && Truncated([page], paths, location, 1)
  {
    var both := [folderId, "elsewhere"];
    var a, b, c := Document("a", both, location), Document("b", both, location), Document("c", [folderId], location);
    drive := (k: nat, request: Listing.ListRequest) =>
      if k == 0 then Listing.Response([a, b], false, Some("more")) else Listing.Response([c], false, None);
    page := Listing.SearchPage([a, b], false, true, false);
    ranking := [a, b, c];
    AskedOnce(folderId, keywords, drive, a, b, c);
    HitsOfThree(a, b, c, both, folderId, location);
    OneHitMerged([page], ranking, folderId, location, Hit(c, c.name));
  }

  lemma OneHitMerged(
    pages: seq<Listing.SearchPage>, ranking: seq<DriveItem>, folderId: string, location: DriveLocation, hit: Hit)
    requires |pages| == 1 && SafeHits(pages[0].items, map[folderId := "."], location) == []
    requires SafeHits(ranking, map[folderId := "."], location) == [hit]
    ensures Merged(Batches(ItemsOf(pages), map[folderId := "."], location)) == []
    ensures Merged(Batches([ranking], map[folderId := "."], location)) == [hit]
  {
    assert Batches(ItemsOf(pages), map[folderId := "."], location) == [[]];
    assert Batches([ranking], map[folderId := "."], location) == [[hit]];
    OneBatchIsUntouched([]);
    OneBatchIsUntouched([hit]);
  }

  lemma AskedOnce(
    folderId: string, keywords: string, drive: Listing.Drive, a: DriveItem, b: DriveItem, c: DriveItem)
    requires a.id == "a" && b.id == "b" && c.id == "c"
    requires forall request :: drive(0, request) == Listing.Response([a, b], false, Some("more"))
    requires forall request :: drive(1, request) == Listing.Response([c], false, None)
    ensures BatchAnswered(drive, [folderId], keywords, 1, 0, Listing.SearchPage([a, b], false, true, false), 1)
    ensures CompleteRanking(drive, [folderId], keywords, 1, 0, 2, [a, b, c])
  {
    assert ParentBatch([folderId], 0) == [folderId];
    Query.SearchQueryRoundTrip([folderId], keywords);
    OnePageAnswers(drive, Listing.FirstRequest(Query.SearchQuery([folderId], keywords).value, None, Some(2)), a, b, c);
  }

  lemma OnePageAnswers(drive: Listing.Drive, first: Listing.ListRequest, a: DriveItem, b: DriveItem, c: DriveItem)
    requires a.id == "a" && b.id == "b" && c.id == "c"
    requires forall request :: drive(0, request) == Listing.Response([a, b], false, Some("more"))
    requires forall request :: drive(1, request) == Listing.Response([c], false, None)
    ensures Listing.Answers(
      drive, first, Listing.SEARCH_PAGE_BUDGET, Some(2), Listing.SearchPage([a, b], false, true, false), 1)
    ensures Listing.HasToken(Listing.Page(drive, first, 0)) && !Listing.HasToken(Listing.Page(drive, first, 1))
    ensures Listing.Distinct(Listing.Gathered(drive, first, 2)) == [a, b, c]
  {
    assert Listing.Page(drive, first, 0) == Listing.Response([a, b], false, Some("more"));
    assert Listing.Page(drive, first, 1) == Listing.Response([c], false, None);
    TwoPages(drive, first, a, b, c);
    ThreeDistinct(a, b, c);
    assert !Listing.Flagged(drive, first, 1);
  }

  function Document(id: string, parents: seq<string>, location: DriveLocation): DriveItem {
    DriveItem(id, id, "text/plain", if location.MyDrive? then None else Some(location.sharedDriveId),
              parents, false, true, None, None)
  }

  lemma HitsOfThree(
    a: DriveItem, b: DriveItem, c: DriveItem, both: seq<string>, folderId: string, location: DriveLocation)
    requires |both| == 2 && a == Document("a", both, location) && b == Document("b", both, location)
    requires c == Document("c", [folderId], location)
    ensures var paths := map[folderId := "."];
            && SafeHits([a, b], paths, location) == []
            && SafeHits([a, b, c], paths, location) == [Hit(c, c.name)]
  {
    var paths := map[folderId := "."];
    assert [a][..0] == [] && [a, b][..1] == [a] && [a, b, c][..2] == [a, b];
    assert SafeHits([], paths, location) == [];
    assert SafeHits([a], paths, location) == [];
    assert c.mimeType[0] == 't' && FOLDER_MIME_TYPE[0] == 'a' && SHORTCUT_MIME_TYPE[0] == 'a';
  }

  lemma TwoPages(drive: Listing.Drive, first: Listing.ListRequest, a: DriveItem, b: DriveItem, c: DriveItem)
    requires Listing.Page(drive, first, 0).files == [a, b] && Listing.Page(drive, first, 1).files == [c]
    ensures Listing.Gathered(drive, first, 1) == [a, b]
    ensures Listing.Gathered(drive, first, 2) == [a, b, c]
  {
    assert Listing.Gathered(drive, first, 1) == Listing.Gathered(drive, first, 0) + [a, b];
    assert Listing.Gathered(drive, first, 2) == Listing.Gathered(drive, first, 1) + [c];
  }

  lemma ThreeDistinct(a: DriveItem, b: DriveItem, c: DriveItem)
    requires a.id == "a" && b.id == "b" && c.id == "c"
    ensures Listing.Distinct([a, b]) == [a, b] && Listing.Distinct([a, b, c]) == [a, b, c]
  {
    Listing.DistinctOfDistinct([a, b]);
    Listing.DistinctOfDistinct([a, b, c]);
  }

  /** An answer that is not `truncated` is everything, whatever the safety filter dropped. */
  lemma NotTruncatedIsComplete(
    drive: Listing.Drive, folderIds: seq<string>, keywords: string, limit: nat,
    pages: seq<Listing.SearchPage>, fetched: seq<nat>, totals: seq<nat>, rankings: seq<seq<DriveItem>>,
    paths: map<string, string>, location: DriveLocation)
    requires Searched(drive, folderIds, keywords, limit, pages, fetched, totals, rankings)
    requires !Truncated(pages, paths, location, limit)
    ensures var answer := Merged(Batches(ItemsOf(pages), paths, location));
            && UpTo(answer, limit) == answer
            && answer == Merged(Batches(rankings, paths, location))
  {
    forall b | 0 <= b < |pages|
      ensures pages[b].items == rankings[b]
    {
      assert BatchAnswered(drive, folderIds, keywords, limit, b, pages[b], fetched[b]);
      assert CompleteRanking(drive, folderIds, keywords, limit, b, totals[b], rankings[b]);
      BatchIsPrefix(drive, folderIds, keywords, limit, b, pages[b], fetched[b], totals[b], rankings[b]);
    }
    assert ItemsOf(pages) == rankings;
  }

  // ---- Exactly when the answer is right.

  /** What Drive is taken to do with a query: every item it ranks for a batch has a parent in
      that batch, and one ID is one item. */
  ghost predicate AnswersTheQuery(rankings: seq<seq<DriveItem>>, folderIds: seq<string>) {
    && (forall b, i :: 0 <= b < |rankings| && 0 <= i < |rankings[b]| ==> IsUnder(rankings[b][i], folderIds, b))
    && (forall b, i, c, j :: 0 <= b < |rankings| && 0 <= i < |rankings[b]| && 0 <= c < |rankings| && 0 <= j < |rankings[c]| ==>
          rankings[b][i].id == rankings[c][j].id ==> rankings[b][i] == rankings[c][j])
  }

  ghost predicate IsUnder(item: DriveItem, folderIds: seq<string>, b: nat) {
    && b * PARENT_BATCH <= |folderIds|
    && exists parent :: parent in item.parents && parent in ParentBatch(folderIds, b)
  }

  /** Two batches of distinct parents share none. */
  lemma BatchesAreDisjoint(folderIds: seq<string>, b: nat, c: nat, parent: string)
    requires forall i, j :: 0 <= i < j < |folderIds| ==> folderIds[i] != folderIds[j]
    requires b < c && c * PARENT_BATCH <= |folderIds|
    requires parent in ParentBatch(folderIds, c)
    ensures b * PARENT_BATCH <= |folderIds| && parent !in ParentBatch(folderIds, b)
  {
    var j :| 0 <= j < |ParentBatch(folderIds, c)| && ParentBatch(folderIds, c)[j] == parent;
    assert folderIds[c * PARENT_BATCH + j] == parent;
    forall i | 0 <= i < |ParentBatch(folderIds, b)|
      ensures ParentBatch(folderIds, b)[i] != parent
    {
      assert ParentBatch(folderIds, b)[i] == folderIds[b * PARENT_BATCH + i];
    }
  }

  /** A safe hit has one parent, hence one batch: no safe ID is ranked twice. */
  lemma SafeHitsAreRankedOnce(
    rankings: seq<seq<DriveItem>>, folderIds: seq<string>, paths: map<string, string>, location: DriveLocation)
    requires forall i, j :: 0 <= i < j < |folderIds| ==> folderIds[i] != folderIds[j]
    requires AnswersTheQuery(rankings, folderIds)
    requires forall b :: 0 <= b < |rankings| ==> DistinctHits(SafeHits(rankings[b], paths, location))
    ensures AllDistinct(Batches(rankings, paths, location))
  {
    var batches := Batches(rankings, paths, location);
    forall c, d | Occupied(batches, c) && Occupied(batches, d) && c != d
      ensures HitAt(batches, c).item.id != HitAt(batches, d).item.id
    {
      if c.batch == d.batch {
        assert DistinctHits(SafeHits(rankings[c.batch], paths, location));
      } else if c.batch < d.batch {
        HitsOfTwoBatches(rankings, folderIds, paths, location, c, d);
      } else {
        HitsOfTwoBatches(rankings, folderIds, paths, location, d, c);
      }
    }
  }

  lemma HitsOfTwoBatches(
    rankings: seq<seq<DriveItem>>, folderIds: seq<string>, paths: map<string, string>, location: DriveLocation,
    c: Cell, d: Cell)
    requires forall i, j :: 0 <= i < j < |folderIds| ==> folderIds[i] != folderIds[j]
    requires AnswersTheQuery(rankings, folderIds)
    requires var batches := Batches(rankings, paths, location); Occupied(batches, c) && Occupied(batches, d)
    requires c.batch < d.batch
    ensures var batches := Batches(rankings, paths, location);
            HitAt(batches, c).item.id != HitAt(batches, d).item.id
  {
    var i := RankOf(rankings, paths, location, c);
    var j := RankOf(rankings, paths, location, d);
    assert IsUnder(rankings[c.batch][i], folderIds, c.batch) && IsUnder(rankings[d.batch][j], folderIds, d.batch);
    var parent := rankings[d.batch][j].parents[0];
    BatchesAreDisjoint(folderIds, c.batch, d.batch, parent);
    assert rankings[c.batch][i].parents[0] != parent;
  }

  lemma RankOf(rankings: seq<seq<DriveItem>>, paths: map<string, string>, location: DriveLocation, c: Cell)
    returns (i: nat)
    requires Occupied(Batches(rankings, paths, location), c)
    ensures i < |rankings[c.batch]| && |rankings[c.batch][i].parents| == 1
    ensures rankings[c.batch][i] == HitAt(Batches(rankings, paths, location), c).item
  {
    var ranking := rankings[c.batch];
    var hit := HitAt(Batches(rankings, paths, location), c);
    SafeHitsAreSafe(ranking, paths, location);
    assert hit in SafeHits(ranking, paths, location);
    i :| 0 <= i < |ranking| && ranking[i] == hit.item;
  }

  /** The answer is the first `limit` items of the complete merge if and only if every one of
      its first `limit` positions was fetched: page budget, safety filter and all. */
  lemma SearchIsExactly(
    drive: Listing.Drive, folderIds: seq<string>, keywords: string, limit: nat,
    pages: seq<Listing.SearchPage>, fetched: seq<nat>, totals: seq<nat>, rankings: seq<seq<DriveItem>>,
    paths: map<string, string>, location: DriveLocation)
    requires Searched(drive, folderIds, keywords, limit, pages, fetched, totals, rankings)
    requires forall i, j :: 0 <= i < j < |folderIds| ==> folderIds[i] != folderIds[j]
    requires AnswersTheQuery(rankings, folderIds)
    ensures var given, complete := Batches(ItemsOf(pages), paths, location), Batches(rankings, paths, location);
            UpTo(Merged(given), limit) == UpTo(Merged(complete), limit) <==> TopFetched(given, complete, limit)
  {
    var given, complete := Batches(ItemsOf(pages), paths, location), Batches(rankings, paths, location);
    PagesArePrefixes(drive, folderIds, keywords, limit, pages, fetched, totals, rankings, paths, location);
    SafeHitsAreRankedOnce(rankings, folderIds, paths, location);
    TopIsExactly(given, complete, limit);
  }

  lemma PagesArePrefixes(
    drive: Listing.Drive, folderIds: seq<string>, keywords: string, limit: nat,
    pages: seq<Listing.SearchPage>, fetched: seq<nat>, totals: seq<nat>, rankings: seq<seq<DriveItem>>,
    paths: map<string, string>, location: DriveLocation)
    requires Searched(drive, folderIds, keywords, limit, pages, fetched, totals, rankings)
    ensures Prefixes(Batches(ItemsOf(pages), paths, location), Batches(rankings, paths, location))
    ensures forall b :: 0 <= b < |rankings| ==> DistinctHits(SafeHits(rankings[b], paths, location))
  {
    forall b | 0 <= b < |pages|
      ensures SafeHits(pages[b].items, paths, location) <= SafeHits(rankings[b], paths, location)
      ensures DistinctHits(SafeHits(rankings[b], paths, location))
    {
      BatchesAreEnough(drive, folderIds, keywords, limit, pages, fetched, totals, rankings, paths, location, b);
    }
  }

  /** Whatever was dropped or cut, `truncated` is never missing: it holds exactly when more
      than `limit` distinct items match or some batch had more. So its one failure is a false
      alarm, where a batch had more and no more than `limit` items match. */
  lemma TruncatedExactly(
    drive: Listing.Drive, folderIds: seq<string>, keywords: string, limit: nat,
    pages: seq<Listing.SearchPage>, fetched: seq<nat>, totals: seq<nat>, rankings: seq<seq<DriveItem>>,
    paths: map<string, string>, location: DriveLocation)
    requires Searched(drive, folderIds, keywords, limit, pages, fetched, totals, rankings)
    ensures Truncated(pages, paths, location, limit) <==>
            |Merged(Batches(rankings, paths, location))| > limit || HasMore(pages)
  {
    PagesArePrefixes(drive, folderIds, keywords, limit, pages, fetched, totals, rankings, paths, location);
    NoMoreThanComplete(Batches(ItemsOf(pages), paths, location), Batches(rankings, paths, location));
    if !Truncated(pages, paths, location, limit) {
      NotTruncatedIsComplete(drive, folderIds, keywords, limit, pages, fetched, totals, rankings, paths, location);
    }
  }

  /** The merged rankings hold exactly one hit for every ID that any batch ranks. */
  lemma MatchesAreCounted(
    rankings: seq<seq<DriveItem>>, paths: map<string, string>, location: DriveLocation, b: nat, i: nat)
    returns (k: nat)
    requires forall b :: 0 <= b < |rankings| ==> AllSafe(rankings[b], paths, location)
    requires b < |rankings| && i < |rankings[b]|
    ensures var all := Merged(Batches(rankings, paths, location));
            && k < |all| && all[k].item.id == rankings[b][i].id
            && forall l :: 0 <= l < |all| && l != k ==> all[l].item.id != rankings[b][i].id
  {
    var complete := Batches(rankings, paths, location);
    AllSafeHits(rankings[b], paths, location);
    k := EveryIdSurvives(complete, Cell(i, b));
    MergedIsDistinct(complete);
  }
}
