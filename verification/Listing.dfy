/** The gateway's pager: one query, page after page, deduplicated by ID. */
module Listing {
  import opened Outcomes
  import opened DriveItems
  import FirstSeen

  const PAGE_SIZE: nat := 1000
  const SEARCH_PAGE_BUDGET: nat := 5
  const FOLDER_PAGE_BUDGET: nat := 20

  datatype ListRequest = ListRequest(
    query: string, orderBy: Option<string>, pageSize: nat, pageToken: Option<string>)

  datatype Response = Response(
    files: seq<DriveItem>, incompleteSearch: bool, nextPageToken: Option<string>)

  datatype SearchPage = SearchPage(
    items: seq<DriveItem>, incomplete: bool, hasMore: bool, pageBudgetExhausted: bool)

  /** Drive: the answer to the k-th request of one paged query. */
  type Drive = (nat, ListRequest) -> Response

  /** An absent token and an empty one both end the pages. */
  predicate HasToken(page: Response) {
    page.nextPageToken.Some? && page.nextPageToken.value != ""
  }

  /** The k-th request of a query: every request after the first carries the token of the
      page before it. */
  function RequestAt(drive: Drive, first: ListRequest, k: nat): ListRequest
    decreases k, 0
  {
    first.(pageToken := if k == 0 then None else Page(drive, first, k - 1).nextPageToken)
  }

  function Page(drive: Drive, first: ListRequest, k: nat): Response
    decreases k, 1
  {
    drive(k, RequestAt(drive, first, k))
  }

  /** Everything on the first `n` pages, in order. */
  function Gathered(drive: Drive, first: ListRequest, n: nat): seq<DriveItem> {
    if n == 0 then [] else Gathered(drive, first, n - 1) + Page(drive, first, n - 1).files
  }

  function Distinct(items: seq<DriveItem>): seq<DriveItem> {
    FirstSeen.Keep(items, Ids(items))
  }

  /** The first request of `_list_items`. */
  function FirstRequest(query: string, orderBy: Option<string>, wanted: Option<nat>): ListRequest {
    var pageSize := if wanted.Some? && wanted.value < PAGE_SIZE then wanted.value else PAGE_SIZE;
    ListRequest(query, orderBy, pageSize, None)
  }

  /** Nothing is left to ask for after `n` pages. */
  ghost predicate Stops(drive: Drive, first: ListRequest, wanted: Option<nat>, n: nat)
    requires n > 0
  {
    || !HasToken(Page(drive, first, n - 1))
    || (wanted.Some? && |Distinct(Gathered(drive, first, n))| >= wanted.value)
  }

  ghost predicate Flagged(drive: Drive, first: ListRequest, n: nat) {
    exists k :: 0 <= k < n && Page(drive, first, k).incompleteSearch
  }

  /** No page before the n-th ended the walk. */
  ghost predicate Walked(drive: Drive, first: ListRequest, wanted: Option<nat>, n: nat) {
    forall m :: 1 <= m < n ==> !Stops(drive, first, wanted, m)
  }

  /** What one paged query answers, `n` being the pages it fetched. */
  ghost predicate Answers(
    drive: Drive, first: ListRequest, budget: nat, wanted: Option<nat>, page: SearchPage, n: nat)
  {
    && n <= budget
    && Walked(drive, first, wanted, n)
    && page.items == Distinct(Gathered(drive, first, n))
    && (page.pageBudgetExhausted <==> n == 0 || !Stops(drive, first, wanted, n))
    && (page.pageBudgetExhausted ==> n == budget)
    && (page.incomplete <==> page.pageBudgetExhausted || Flagged(drive, first, n))
    && (page.hasMore <==> n == 0 || HasToken(Page(drive, first, n - 1)))
  }

  method ListItems(drive: Drive, query: string, pageBudget: nat, orderBy: Option<string>, wanted: Option<nat>)
    returns (page: SearchPage)
    ensures IsAnswered(drive, query, orderBy, pageBudget, wanted, page)
    ensures IsTheConclusion(drive, query, orderBy, wanted, pageBudget, page)
  {
    var request := FirstRequest(query, orderBy, wanted);
    ghost var first := request;
    var itemsById: seq<DriveItem> := [];  // an insertion-ordered dictionary, as its values
    var incomplete := false;
    SetOut(drive, first, wanted);
    for k := 0 to pageBudget
      invariant Walking(drive, first, wanted, k, request, itemsById, incomplete)
    {
      var response := drive(k, request);
      ghost var was := itemsById;
      itemsById := AddFiles(itemsById, response.files, Gathered(drive, first, k));
      OneMorePage(drive, first, wanted, k, request, incomplete, was, itemsById);
      incomplete := incomplete || response.incompleteSearch;
      if !HasToken(response) {
        page := SearchPage(itemsById, incomplete, false, false);
        StoppedAnswers(drive, query, orderBy, pageBudget, wanted, page, k + 1);
        return;
      }
      if wanted.Some? && |itemsById| >= wanted.value {
        page := SearchPage(itemsById, incomplete, true, false);
        StoppedAnswers(drive, query, orderBy, pageBudget, wanted, page, k + 1);
        return;
      }
      request := request.(pageToken := response.nextPageToken);
    }
    page := SearchPage(itemsById, true, true, true);
    ExhaustedAnswers(drive, query, orderBy, pageBudget, wanted, page);
  }

  ghost predicate IsAnswered(
    drive: Drive, query: string, orderBy: Option<string>, budget: nat, wanted: Option<nat>, page: SearchPage)
  {
    exists fetched: nat :: Answers(drive, FirstRequest(query, orderBy, wanted), budget, wanted, page, fetched)
  }

  /** The pager's variables before its k-th request. */
  ghost predicate Walking(
    drive: Drive, first: ListRequest, wanted: Option<nat>, k: nat, request: ListRequest, items: seq<DriveItem>, incomplete: bool)
  {
    && request == RequestAt(drive, first, k)
    && items == Distinct(Gathered(drive, first, k))
    && incomplete == Flagged(drive, first, k)
    && Walked(drive, first, wanted, k + 1)
  }

  lemma SetOut(drive: Drive, first: ListRequest, wanted: Option<nat>)
    requires first.pageToken == None
    ensures Walking(drive, first, wanted, 0, first, [], false)
  {
  }

  lemma OneMorePage(
    drive: Drive, first: ListRequest, wanted: Option<nat>, k: nat, request: ListRequest, incomplete: bool,
    was: seq<DriveItem>, items: seq<DriveItem>)
    requires Walking(drive, first, wanted, k, request, was, incomplete)
    requires items == Distinct(Gathered(drive, first, k) + drive(k, request).files)
    ensures var response := drive(k, request);
            && response == Page(drive, first, k)
            && items == Distinct(Gathered(drive, first, k + 1))
            && Flagged(drive, first, k + 1) == (incomplete || response.incompleteSearch)
            && (!Stops(drive, first, wanted, k + 1) ==>
                  Walking(drive, first, wanted, k + 1, request.(pageToken := response.nextPageToken), items,
                          incomplete || response.incompleteSearch))
  {
    FlaggedSnoc(drive, first, k);
  }

  lemma StoppedAnswers(
    drive: Drive, query: string, orderBy: Option<string>, budget: nat, wanted: Option<nat>, page: SearchPage, n: nat)
    requires var first := FirstRequest(query, orderBy, wanted);
             && 0 < n <= budget && Walked(drive, first, wanted, n) && Stops(drive, first, wanted, n)
             && page == SearchPage(Distinct(Gathered(drive, first, n)), Flagged(drive, first, n),
                                   HasToken(Page(drive, first, n - 1)), false)
    ensures IsAnswered(drive, query, orderBy, budget, wanted, page)
    ensures IsTheConclusion(drive, query, orderBy, wanted, budget, page)
  {
    assert Answers(drive, FirstRequest(query, orderBy, wanted), budget, wanted, page, n);
    AnswersAreExchanged(drive, query, orderBy, wanted, budget, page, n);
  }

  lemma ExhaustedAnswers(
    drive: Drive, query: string, orderBy: Option<string>, budget: nat, wanted: Option<nat>, page: SearchPage)
    requires var first := FirstRequest(query, orderBy, wanted);
             && Walked(drive, first, wanted, budget + 1)
             && page == SearchPage(Distinct(Gathered(drive, first, budget)), true, true, true)
    ensures IsAnswered(drive, query, orderBy, budget, wanted, page)
    ensures IsTheConclusion(drive, query, orderBy, wanted, budget, page)
  {
    assert budget > 0 ==> !Stops(drive, FirstRequest(query, orderBy, wanted), wanted, budget);
    assert Answers(drive, FirstRequest(query, orderBy, wanted), budget, wanted, page, budget);
    AnswersAreExchanged(drive, query, orderBy, wanted, budget, page, budget);
  }

  // ---- The same, as what goes over the wire.

  /** Requests and answers, one for one: all requests carry the query and the order asked for
      and a page of at most a thousand rows; the first carries no token, and every other one
      the token of the answer before it. */
  ghost predicate IsExchange(
    drive: Drive, query: string, orderBy: Option<string>, wanted: Option<nat>, sent: seq<ListRequest>, got: seq<Response>)
  {
    && |sent| == |got|
    && (forall k :: 0 <= k < |sent| ==>
          && sent[k].query == query && sent[k].orderBy == orderBy
          && sent[k].pageSize == (if wanted.Some? && wanted.value < 1000 then wanted.value else 1000)
          && sent[k].pageToken == (if k == 0 then None else got[k - 1].nextPageToken)
          && got[k] == drive(k, sent[k]))
  }

  /** Whether an answer offers more: its token is neither absent nor empty. */
  ghost predicate OffersMore(answer: Response) {
    exists token :: answer.nextPageToken == Some(token) && |token| > 0
  }

  function FilesOf(got: seq<Response>): seq<DriveItem> {
    if got == [] then [] else FilesOf(got[..|got| - 1]) + got[|got| - 1].files
  }

  /** What is made of the answers: the first sight of each ID; and the walk went on exactly
      while it was offered more, had not the count it wanted, and had requests left. */
  ghost predicate Concludes(got: seq<Response>, pageBudget: nat, wanted: Option<nat>, page: SearchPage) {
    var n := |got|;
    && n <= pageBudget
    && page.items == Distinct(FilesOf(got))
    && (forall m :: 1 <= m < n ==> GoesOn(got, wanted, m))
    && (page.pageBudgetExhausted <==> n == pageBudget && (n > 0 ==> GoesOn(got, wanted, n)))
    && (!page.pageBudgetExhausted ==> n > 0 && !GoesOn(got, wanted, n))
    && (page.incomplete <==> page.pageBudgetExhausted || exists k :: 0 <= k < n && got[k].incompleteSearch)
    && (page.hasMore <==> n == 0 || OffersMore(got[n - 1]))
  }

  /** After `m` answers more is offered, and still wanted. */
  ghost predicate GoesOn(got: seq<Response>, wanted: Option<nat>, m: nat)
    requires 0 < m <= |got|
  {
    OffersMore(got[m - 1]) && !(wanted.Some? && |Distinct(FilesOf(got[..m]))| >= wanted.value)
  }

  function Sent(drive: Drive, first: ListRequest, n: nat): (r: seq<ListRequest>)
    ensures |r| == n && forall k :: 0 <= k < n ==> r[k] == RequestAt(drive, first, k)
  {
    seq(n, k requires 0 <= k < n => RequestAt(drive, first, k))
  }

  function Got(drive: Drive, first: ListRequest, n: nat): (r: seq<Response>)
    ensures |r| == n && forall k :: 0 <= k < n ==> r[k] == Page(drive, first, k)
  {
    seq(n, k requires 0 <= k < n => Page(drive, first, k))
  }

  lemma {:induction false} FilesAreGathered(drive: Drive, first: ListRequest, n: nat)
    ensures FilesOf(Got(drive, first, n)) == Gathered(drive, first, n)
  {
    if n > 0 {
      FilesAreGathered(drive, first, n - 1);
      assert Got(drive, first, n)[..n - 1] == Got(drive, first, n - 1);
    }
  }

  /** The page is what some exchange of requests and answers comes to. */
  ghost predicate IsTheConclusion(
    drive: Drive, query: string, orderBy: Option<string>, wanted: Option<nat>, budget: nat, page: SearchPage)
  {
    exists sent, got :: IsExchange(drive, query, orderBy, wanted, sent, got) && Concludes(got, budget, wanted, page)
  }

  lemma PagesAreExchanged(drive: Drive, query: string, orderBy: Option<string>, wanted: Option<nat>, n: nat)
    ensures var first := FirstRequest(query, orderBy, wanted);
            IsExchange(drive, query, orderBy, wanted, Sent(drive, first, n), Got(drive, first, n))
  {
  }

  lemma StopsAreSeen(drive: Drive, first: ListRequest, wanted: Option<nat>, n: nat, m: nat)
    requires 1 <= m <= n
    ensures GoesOn(Got(drive, first, n), wanted, m) <==> !Stops(drive, first, wanted, m)
    ensures OffersMore(Got(drive, first, n)[m - 1]) <==> HasToken(Page(drive, first, m - 1))
  {
    FilesAreGathered(drive, first, m);
    assert Got(drive, first, n)[..m] == Got(drive, first, m);
  }

  lemma AnswersAreExchanged(
    drive: Drive, query: string, orderBy: Option<string>, wanted: Option<nat>, budget: nat, page: SearchPage, n: nat)
    requires Answers(drive, FirstRequest(query, orderBy, wanted), budget, wanted, page, n)
    ensures IsTheConclusion(drive, query, orderBy, wanted, budget, page)
  {
    var first := FirstRequest(query, orderBy, wanted);
    PagesAreExchanged(drive, query, orderBy, wanted, n);
    AnswersConclude(drive, first, wanted, budget, page, n);
  }

  lemma AnswersConclude(drive: Drive, first: ListRequest, wanted: Option<nat>, budget: nat, page: SearchPage, n: nat)
    requires Answers(drive, first, budget, wanted, page, n)
    ensures Concludes(Got(drive, first, n), budget, wanted, page)
  {
    var got := Got(drive, first, n);
    FilesAreGathered(drive, first, n);
    if n > 0 {
      StopsAreSeen(drive, first, wanted, n, n);
    }
    forall m | 1 <= m < n
      ensures GoesOn(got, wanted, m)
    {
      StopsAreSeen(drive, first, wanted, n, m);
    }
    assert Flagged(drive, first, n) <==> exists k :: 0 <= k < n && got[k].incompleteSearch;
  }

  /** A Drive that holds `pages` for a query and knows them by their tokens alone. */
  ghost predicate Serves(drive: Drive, query: string, pages: seq<seq<DriveItem>>, tokens: seq<string>) {
    && |pages| == |tokens| + 1
    && (forall j :: 0 <= j < |tokens| ==> tokens[j] != "")
    && (forall k, request: ListRequest :: request.query == query && request.pageToken == None ==>
          drive(k, request) == Served(pages, tokens, 0))
    && (forall k, j, request: ListRequest ::
          request.query == query && 0 <= j < |tokens| && request.pageToken == Some(tokens[j]) ==>
            drive(k, request) == Served(pages, tokens, j + 1))
  }

  function Served(pages: seq<seq<DriveItem>>, tokens: seq<string>, j: nat): Response
    requires j < |pages| == |tokens| + 1
  {
    Response(pages[j], false, if j < |tokens| then Some(tokens[j]) else None)
  }

  function Flat<T>(pages: seq<seq<T>>): seq<T> {
    if pages == [] then [] else Flat(pages[..|pages| - 1]) + pages[|pages| - 1]
  }

  lemma {:induction false} ServedInTurn(
    drive: Drive, first: ListRequest, pages: seq<seq<DriveItem>>, tokens: seq<string>, k: nat)
    requires Serves(drive, first.query, pages, tokens) && k < |pages|
    ensures Page(drive, first, k) == Served(pages, tokens, k)
    ensures Gathered(drive, first, k + 1) == Flat(pages[..k + 1])
  {
    if k > 0 {
      ServedInTurn(drive, first, pages, tokens, k - 1);
    }
    assert RequestAt(drive, first, k).query == first.query;
    assert pages[..k + 1][..k] == pages[..k];
    assert k == 0 ==> pages[..k] == [] && Gathered(drive, first, 0) == [];
  }

  /** Such a Drive is listed whole exactly when it has no more pages than the budget: every
      item of every page, each ID where it is first seen. */
  lemma PagesAreListed(
    drive: Drive, query: string, orderBy: Option<string>, pages: seq<seq<DriveItem>>, tokens: seq<string>,
    budget: nat, page: SearchPage, n: nat)
    requires Serves(drive, query, pages, tokens)
    requires Answers(drive, FirstRequest(query, orderBy, None), budget, None, page, n)
    ensures RequireComplete(page) ==
            if |pages| <= budget then Ok(Distinct(Flat(pages))) else Err(EnumerationBudgetExceeded)
  {
    var first := FirstRequest(query, orderBy, None);
    forall k | 0 <= k < |pages|
      ensures Page(drive, first, k) == Served(pages, tokens, k)
    {
      ServedInTurn(drive, first, pages, tokens, k);
    }
    var last := |pages| - 1;
    ServedInTurn(drive, first, pages, tokens, last);
    assert pages[..last + 1] == pages;
    if |pages| <= budget {
      assert !Flagged(drive, first, |pages|);
      WholeIsComplete(drive, first, budget, page, n, |pages|, Distinct(Flat(pages)));
    } else {
      BudgetExceededExactly(drive, first, budget, page, n);
      assert Endless(drive, first, budget);
    }
  }

  lemma FlaggedSnoc(drive: Drive, first: ListRequest, k: nat)
    ensures Flagged(drive, first, k + 1) <==> Flagged(drive, first, k) || Page(drive, first, k).incompleteSearch
  {
  }

  /** `setdefault` for every file of one page. */
  method AddFiles(items: seq<DriveItem>, files: seq<DriveItem>, ghost before: seq<DriveItem>)
    returns (r: seq<DriveItem>)
    requires items == Distinct(before)
    ensures r == Distinct(before + files)
  {
    r := items;
    assert before + files[..0] == before;
    for i := 0 to |files|
      invariant r == Distinct(before + files[..i])
    {
      assert before + files[..i] + [files[i]] == before + files[..i + 1];
      DistinctSnoc(before + files[..i], files[i]);
      if forall k :: 0 <= k < |r| ==> r[k].id != files[i].id {
        r := r + [files[i]];
      }
    }
    assert files[..|files|] == files;
  }

  lemma DistinctSnoc(seen: seq<DriveItem>, file: DriveItem)
    ensures Distinct(seen + [file]) ==
            if exists k :: 0 <= k < |Distinct(seen)| && Distinct(seen)[k].id == file.id
            then Distinct(seen) else Distinct(seen) + [file]
  {
    KeptIds(seen);
    FirstSeen.KeepSnoc(seen, Ids(seen), file, file.id);
    assert Ids(seen) + [file.id] == Ids(seen + [file]);
    var r := Distinct(seen);
    assert forall k :: 0 <= k < |r| ==> Ids(r)[k] == r[k].id;
  }

  /** Deduplication loses no ID and repeats none. */
  lemma KeptIds(items: seq<DriveItem>)
    ensures DistinctIds(Distinct(items))
    ensures forall id :: id in Ids(Distinct(items)) <==> id in Ids(items)
  {
    var ids, r := Ids(items), Distinct(items);
    FirstSeen.KeptKeys(ids);
    FirstSeen.KeepMaps(items, ids, ids, (item: DriveItem) => item.id);
    assert Ids(r) == FirstSeen.Keep(ids, ids);
    assert forall i :: 0 <= i < |r| ==> r[i].id == Ids(r)[i];
  }

  lemma DistinctOfDistinct(items: seq<DriveItem>)
    requires DistinctIds(items)
    ensures Distinct(items) == items
  {
    FirstSeen.KeepDistinct(items, Ids(items));
  }

  /** Deduplication invents nothing. */
  lemma {:induction false} DistinctIsFrom(items: seq<DriveItem>)
    ensures forall item :: item in Distinct(items) ==> item in items
  {
    FirstSeen.KeepIsFirsts(items, Ids(items));
  }

  /** `_require_complete`: the budget is reported ahead of Drive's own flag. */
  function RequireComplete(page: SearchPage): Result<seq<DriveItem>> {
    if page.pageBudgetExhausted then Err(EnumerationBudgetExceeded)
    else if page.incomplete then Err(EnumerationIncomplete)
    else Ok(page.items)
  }

  /** A listing that is the whole of what Drive has for the query, on its `n` pages. */
  ghost predicate WholeListing(drive: Drive, first: ListRequest, n: nat, items: seq<DriveItem>) {
    && n > 0
    && (forall k :: 0 <= k < n - 1 ==> HasToken(Page(drive, first, k)))
    && !HasToken(Page(drive, first, n - 1))
    && !Flagged(drive, first, n)
    && items == Distinct(Gathered(drive, first, n))
  }

  /** A query without a count that passes `_require_complete` is a whole listing. */
  lemma CompleteIsWhole(drive: Drive, first: ListRequest, budget: nat, page: SearchPage, n: nat)
    requires Answers(drive, first, budget, None, page, n)
    requires RequireComplete(page).Ok?
    ensures WholeListing(drive, first, n, RequireComplete(page).value)
  {
    forall k | 0 <= k < n - 1
      ensures HasToken(Page(drive, first, k))
    {
      assert !Stops(drive, first, None, k + 1);
    }
    assert Stops(drive, first, None, n);
  }

  /** Conversely, whenever Drive's pages end unflagged within the budget, that listing is
      what `_require_complete` lets through. */
  lemma WholeIsComplete(
    drive: Drive, first: ListRequest, budget: nat, page: SearchPage, n: nat, m: nat, items: seq<DriveItem>)
    requires Answers(drive, first, budget, None, page, n)
    requires m <= budget && WholeListing(drive, first, m, items)
    ensures RequireComplete(page) == Ok(items)
  {
    assert Stops(drive, first, None, m);
  }

  ghost predicate Endless(drive: Drive, first: ListRequest, budget: nat) {
    forall k :: 0 <= k < budget ==> HasToken(Page(drive, first, k))
  }

  /** The budget is blamed exactly when every page it allowed offered another one. */
  lemma BudgetExceededExactly(drive: Drive, first: ListRequest, budget: nat, page: SearchPage, n: nat)
    requires Answers(drive, first, budget, None, page, n)
    ensures RequireComplete(page) == Err(EnumerationBudgetExceeded) <==> Endless(drive, first, budget)
  {
    if page.pageBudgetExhausted {
      forall k | 0 <= k < budget
        ensures HasToken(Page(drive, first, k))
      {
        assert !Stops(drive, first, None, k + 1);
      }
    } else {
      var last := n - 1;
      assert Stops(drive, first, None, last + 1);
      assert 0 <= last < budget && !HasToken(Page(drive, first, last));
    }
  }

  /** A query for `wanted` items that did not run out of pages stops at the first page
      where that many distinct items are held or the token is gone. */
  lemma WantedStopsFirst(drive: Drive, first: ListRequest, budget: nat, wanted: Option<nat>, page: SearchPage, n: nat)
    requires wanted.Some? && Answers(drive, first, budget, wanted, page, n)
    requires !page.pageBudgetExhausted
    ensures n > 0 && (|page.items| >= wanted.value || !page.hasMore)
    ensures forall m :: 1 <= m < n ==> |Distinct(Gathered(drive, first, m))| < wanted.value
    ensures forall k :: 0 <= k < n - 1 ==> HasToken(Page(drive, first, k))
  {
    forall m | 1 <= m < n
      ensures |Distinct(Gathered(drive, first, m))| < wanted.value
    {
      assert !Stops(drive, first, wanted, m);
    }
    forall k | 0 <= k < n - 1
      ensures HasToken(Page(drive, first, k))
    {
      assert !Stops(drive, first, wanted, k + 1);
    }
  }

  /** What was fetched is a prefix of everything any longer walk would fetch. */
  lemma {:induction false} GatheredPrefix(drive: Drive, first: ListRequest, m: nat, n: nat)
    requires m <= n
    ensures Gathered(drive, first, m) <= Gathered(drive, first, n)
    ensures Distinct(Gathered(drive, first, m)) <= Distinct(Gathered(drive, first, n))
  {
    if m < n {
      GatheredPrefix(drive, first, m, n - 1);
    }
    var part, whole := Gathered(drive, first, m), Gathered(drive, first, n);
    FirstSeen.KeepPrefix(whole, Ids(whole), |part|);
    assert Ids(whole)[..|part|] == Ids(part);
    assert whole[..|part|] == part;
  }
}
