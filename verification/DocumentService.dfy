/** The document service: bounded reads through the cache, and bounded folder pages. */
module DocumentService {
  import opened Outcomes
  import opened DriveItems
  import opened Cursor
  import opened Paging
  import opened Scope
  import opened Verdicts
  import Lru
  import Whitespace

  /** One version of one document: `(id, modified_time, mime_type)`. */
  datatype Key = Key(id: string, modifiedTime: Option<string>, mimeType: string)

  function KeyOf(item: DriveItem): Key {
    Key(item.id, item.modifiedTime, item.mimeType)
  }

  /** Two items share a key exactly when they are one version of one document. */
  lemma KeysTellVersionsApart(a: DriveItem, b: DriveItem)
    ensures KeyOf(a) == KeyOf(b) <==> a.id == b.id && a.modifiedTime == b.modifiedTime && a.mimeType == b.mimeType
  {
  }

  /** How a MIME type is read: what to export it as, and the parser. A parser is any
      function from bytes to a document, or to nothing when it raises. */
  datatype Plan = Plan(exportMimeType: Option<string>, extractor: Content -> Option<ExtractedDocument>)

  datatype Entry = Entry(key: Key, document: ExtractedDocument)

  // ---- The ordered dictionary.

  function Keys(cache: seq<Entry>): (r: seq<Key>)
    ensures |r| == |cache| && forall i :: 0 <= i < |cache| ==> r[i] == cache[i].key
  {
    seq(|cache|, i requires 0 <= i < |cache| => cache[i].key)
  }

  function Get(cache: seq<Entry>, key: Key): (r: Option<ExtractedDocument>)
    ensures r.Some? <==> key in Keys(cache)
    ensures r.Some? ==> Entry(key, r.value) in cache
  {
    if cache == [] then None
    else if cache[0].key == key then Some(cache[0].document)
    else
      assert Keys(cache) == [cache[0].key] + Keys(cache[1..]);
      Get(cache[1..], key)
  }

  function Remove(cache: seq<Entry>, key: Key): (r: seq<Entry>)
    ensures Keys(r) == Lru.Without(Keys(cache), key)
    ensures forall e :: e in r ==> e in cache
  {
    if cache == [] then [] else
      assert Keys(cache)[1..] == Keys(cache[1..]);
      var rest := Remove(cache[1..], key);
      if cache[0].key == key then rest else
        assert Keys([cache[0]] + rest) == [cache[0].key] + Keys(rest);
        [cache[0]] + rest
  }

  /** The cache after a hit, and after a document was parsed. */
  function Hit(cache: seq<Entry>, key: Key): seq<Entry>
    requires key in Keys(cache)
  {
    Remove(cache, key) + [Entry(key, Get(cache, key).value)]
  }

  function Stored(cache: seq<Entry>, entry: Entry, size: nat): seq<Entry> {
    Lru.LastN(cache + [entry], size)
  }

  lemma HitTouches(cache: seq<Entry>, use: Lru.Use<Key>, size: nat)
    requires use.key in Keys(cache)
    ensures Keys(Hit(cache, use.key)) == Lru.Touch(Keys(cache), use, size)
    ensures forall e :: e in Hit(cache, use.key) ==> e in cache
  {
    assert Keys(Hit(cache, use.key)) == Keys(Remove(cache, use.key)) + [use.key];
  }

  lemma StoredTouches(cache: seq<Entry>, entry: Entry, size: nat)
    requires entry.key !in Keys(cache)
    ensures Keys(Stored(cache, entry, size)) == Lru.Touch(Keys(cache), Lru.Use(entry.key, true, true), size)
    ensures forall e :: e in Stored(cache, entry, size) ==> e in cache || e == entry
  {
    assert Keys(cache + [entry]) == Keys(cache) + [entry.key];
    assert Keys(Lru.LastN(cache + [entry], size)) == Lru.LastN(Keys(cache + [entry]), size);
  }

  // ---- Folder pages.

  datatype FolderPage = FolderPage(items: seq<ScopedItem>, nextCursor: Option<string>)

  /** One page of a listing. */
  function PageOf(items: seq<ScopedItem>, cursor: Option<string>, limit: nat): Result<FolderPage> {
    match DecodeCursor(cursor)
    case Err(e) => Err(e)
    case Ok(start) =>
      if start > |items| then Err(InvalidCursor) else
        var end := Min(start + limit, |items|);
        Ok(FolderPage(items[start..end], if end < |items| then Some(EncodeCursor(end)) else None))
  }

  /** Pages of an unchanged listing, each asked for with the cursor of the one before it;
      `ask(p)` is the limit of page `p`. `page` is what a request answers. */
  ghost predicate IsPaging(
    page: (Option<string>, nat) -> Result<FolderPage>, cursor: Option<string>, ask: nat -> nat, p: nat, pages: seq<FolderPage>)
    decreases |pages|
  {
    && pages != []
    && page(cursor, ask(p)) == Ok(pages[0])
    && if pages[0].nextCursor.None? then |pages| == 1
       else IsPaging(page, pages[0].nextCursor, ask, p + 1, pages[1..])
  }

  function AllItems(pages: seq<FolderPage>): seq<ScopedItem> {
    if pages == [] then [] else pages[0].items + AllItems(pages[1..])
  }

  /** `page` pages through `items` by cursor. */
  ghost predicate PagesThrough(items: seq<ScopedItem>, page: (Option<string>, nat) -> Result<FolderPage>) {
    forall start: nat, limit: nat :: start <= |items| ==>
      page(Some(EncodeCursor(start)), limit) == PageFrom(items, start, limit)
  }

  function PageFrom(items: seq<ScopedItem>, start: nat, limit: nat): Result<FolderPage>
    requires start <= |items|
  {
    var end := Min(start + limit, |items|);
    Ok(FolderPage(items[start..end], if end < |items| then Some(EncodeCursor(end)) else None))
  }

  lemma {:induction false} PagingFrom(
    items: seq<ScopedItem>, page: (Option<string>, nat) -> Result<FolderPage>, cursor: Option<string>, start: nat,
    ask: nat -> nat, p: nat, pages: seq<FolderPage>)
    requires PagesThrough(items, page)
    requires start <= |items| && page(cursor, ask(p)) == PageFrom(items, start, ask(p))
    requires IsPaging(page, cursor, ask, p, pages)
    ensures AllItems(pages) == items[start..]
    decreases |pages|
  {
    var end := Min(start + ask(p), |items|);
    if end < |items| {
      assert page(Some(EncodeCursor(end)), ask(p + 1)) == PageFrom(items, end, ask(p + 1));
      PagingFrom(items, page, pages[0].nextCursor, end, ask, p + 1, pages[1..]);
      assert items[start..] == items[start..end] + items[end..];
    } else {
      assert AllItems(pages[1..]) == [];
    }
  }

  /** A page, in full: a cursor that is no offset of the listing is refused; any other gives
      the items from there on, as many as were asked for while there are any, and a cursor to
      the rest if there is one. */
  lemma PagesExactly(items: seq<ScopedItem>, cursor: Option<string>, limit: nat)
    ensures var r := PageOf(items, cursor, limit);
            if DecodeCursor(cursor).Err? || DecodeCursor(cursor).value > |items| then r == Err(InvalidCursor)
            else
              var start := DecodeCursor(cursor).value;
              && r.Ok? && |r.value.items| <= limit && start + |r.value.items| <= |items|
              && r.value.items == items[start..start + |r.value.items|]
              && (start + |r.value.items| < |items| ==> |r.value.items| == limit)
              && (r.value.nextCursor.None? <==> start + |r.value.items| == |items|)
              && (r.value.nextCursor.Some? ==> DecodeCursor(r.value.nextCursor) == Ok(start + |r.value.items|))
  {
    if DecodeCursor(cursor).Ok? && DecodeCursor(cursor).value <= |items| {
      CursorRoundTrip(Min(DecodeCursor(cursor).value + limit, |items|));
    }
  }

  lemma PageOfReadsCursor(items: seq<ScopedItem>, start: nat, limit: nat)
    requires start <= |items|
    ensures PageOf(items, Some(EncodeCursor(start)), limit) == PageFrom(items, start, limit)
  {
    CursorRoundTrip(start);
  }

  /** What requests for pages of an unchanged listing answer. */
  function Pages(items: seq<ScopedItem>): (Option<string>, nat) -> Result<FolderPage> {
    (cursor: Option<string>, limit: nat) => PageOf(items, cursor, limit)
  }

  /** Folder pages, with any limits, partition an unchanged listing. */
  lemma FolderPagesPartition(items: seq<ScopedItem>, ask: nat -> nat, pages: seq<FolderPage>)
    ensures IsPaging(Pages(items), None, ask, 0, pages) ==> AllItems(pages) == items
  {
    AnswersPageThrough(items);
    if IsPaging(Pages(items), None, ask, 0, pages) {
      PagingFrom(items, Pages(items), None, 0, ask, 0, pages);
    }
  }

  /** And with positive limits the pages do come to an end. */
  lemma FolderPagesEnd(items: seq<ScopedItem>, ask: nat -> nat) returns (pages: seq<FolderPage>)
    requires forall p :: ask(p) >= 1
    ensures IsPaging(Pages(items), None, ask, 0, pages) && |pages| <= |items| + 1
  {
    AnswersPageThrough(items);
    pages := PagingEnds(items, Pages(items), None, 0, ask, 0);
  }

  lemma AnswersPageThrough(items: seq<ScopedItem>)
    ensures PagesThrough(items, Pages(items))
    ensures forall limit: nat :: Pages(items)(None, limit) == PageFrom(items, 0, limit)
  {
    forall start: nat, limit: nat | start <= |items|
      ensures Pages(items)(Some(EncodeCursor(start)), limit) == PageFrom(items, start, limit)
    {
      PageOfReadsCursor(items, start, limit);
    }
  }

  lemma {:induction false} PagingEnds(
    items: seq<ScopedItem>, page: (Option<string>, nat) -> Result<FolderPage>, cursor: Option<string>, start: nat,
    ask: nat -> nat, p: nat)
    returns (pages: seq<FolderPage>)
    requires PagesThrough(items, page) && forall q :: ask(q) >= 1
    requires start <= |items| && page(cursor, ask(p)) == PageFrom(items, start, ask(p))
    ensures IsPaging(page, cursor, ask, p, pages) && |pages| <= |items| - start + 1
    decreases |items| - start
  {
    var end := Min(start + ask(p), |items|);
    var first := PageFrom(items, start, ask(p)).value;
    pages := [first];
    if end < |items| {
      assert page(Some(EncodeCursor(end)), ask(p + 1)) == PageFrom(items, end, ask(p + 1));
      var rest := PagingEnds(items, page, first.nextCursor, end, ask, p + 1);
      pages := pages + rest;
      assert pages[1..] == rest;
    }
  }

  // ---- The service.

  datatype ReadResult = ReadResult(
    id: string, name: string, mimeType: string, relativePath: string, chunk: Chunk, totalChars: nat)

  /** `not text.strip()`. */
  predicate IsBlank(text: string) {
    Whitespace.Strip(text) == ""
  }

  lemma {:induction false} StripLeftOfSpace(text: string)
    ensures Whitespace.StripLeft(text) == "" <==> forall c :: c in text ==> Whitespace.IsSpace(c)
  {
    if text != "" {
      StripLeftOfSpace(text[1..]);
      assert text == [text[0]] + text[1..];
      assert text[0] in text;
    }
  }

  lemma {:induction false} StripRightKeepsHead(text: string)
    requires text != "" && !Whitespace.IsSpace(text[0])
    ensures Whitespace.StripRight(text) != ""
  {
    if Whitespace.IsSpace(text[|text| - 1]) {
      StripRightKeepsHead(text[..|text| - 1]);
    }
  }

  lemma {:induction false} StripLeftStopsAtHead(text: string)
    ensures Whitespace.StripLeft(text) != "" ==> !Whitespace.IsSpace(Whitespace.StripLeft(text)[0])
  {
    if text != "" && Whitespace.IsSpace(text[0]) {
      StripLeftStopsAtHead(text[1..]);
    }
  }

  /** A text is blank exactly when every character of it is space. */
  lemma BlankIsAllSpace(text: string)
    ensures IsBlank(text) <==> forall c :: c in text ==> Whitespace.IsSpace(c)
  {
    StripLeftOfSpace(text);
    StripLeftStopsAtHead(text);
    if Whitespace.StripLeft(text) != "" {
      StripRightKeepsHead(Whitespace.StripLeft(text));
    }
  }

  class Service {
    const scopedDrive: ScopedDrive
    const plans: string -> Option<Plan>
    const cacheSize: nat
    const maxReadChars: int
    const maxReadBytes: nat
    const maxDownloadBytes: int
    /** The bytes of a document version under an export type. */
    ghost const bytes: (string, Option<string>, string, Option<string>) -> Content
    /** The ordered dictionary, least recently used first. */
    var cache: seq<Entry>
    /** Every read of a document so far, and how many of them went to Drive. */
    ghost var history: seq<Lru.Use<Key>>
    ghost var fetched: nat

    constructor (
      scopedDrive: ScopedDrive, plans: string -> Option<Plan>, cacheSize: nat, maxReadChars: int, maxReadBytes: nat,
      maxDownloadBytes: int, ghost bytes: (string, Option<string>, string, Option<string>) -> Content)
      ensures Valid() && Coherent() && cache == [] && history == [] && this.scopedDrive == scopedDrive && this.plans == plans
      ensures this.cacheSize == cacheSize && this.maxReadChars == maxReadChars && this.maxReadBytes == maxReadBytes
      ensures this.maxDownloadBytes == maxDownloadBytes && this.bytes == bytes
    {
      this.scopedDrive, this.plans, this.cacheSize := scopedDrive, plans, cacheSize;
      this.maxReadChars, this.maxReadBytes, this.maxDownloadBytes := maxReadChars, maxReadBytes, maxDownloadBytes;
      this.bytes, cache, history, fetched := bytes, [], [], 0;
    }

    /** What is in the cache, in which order, and how many reads went to Drive, is what
        `Lru.Run` and `Lru.Downloads` make of the history of reads. */
    ghost predicate Valid()
      reads this
    {
      Keys(cache) == Lru.Run(history, cacheSize) && fetched == Lru.Downloads(history, cacheSize)
    }

    /** What a read of the item would come to this time without an answer from the cache. */
    ghost function UseOf(authorized: AuthorizedItem, plan: Plan): Lru.Use<Key>
      reads scopedDrive`issued, scopedDrive.gateway`items, scopedDrive.gateway`content
    {
      var item, items := authorized.item, scopedDrive.gateway.items;
      Lru.Use(
        KeyOf(item),
        !IsOversized(item, plan, maxDownloadBytes) && authorized in scopedDrive.issued,
        item.id in items && Parsed(plan, scopedDrive.gateway.content(items[item.id], plan.exportMimeType)).Ok?)
    }

    /** Bytes depend on nothing but ID, modification time, MIME type and the export type. */
    ghost predicate Versioned()
      reads scopedDrive.gateway`content
    {
      forall item, e :: scopedDrive.gateway.content(item, e) == bytes(item.id, item.modifiedTime, item.mimeType, e)
    }

    /** What a fresh download and extraction of this version would give. */
    ghost function Fresh(key: Key): Option<ExtractedDocument> {
      match plans(key.mimeType)
      case None => None
      case Some(plan) => plan.extractor(bytes(key.id, key.modifiedTime, key.mimeType, plan.exportMimeType))
    }

    /** What `_extracted` would answer without a cache. */
    ghost function FreshDocument(item: DriveItem): Result<ExtractedDocument>
      requires plans(item.mimeType).Some?
    {
      var plan := plans(item.mimeType).value;
      if plan.exportMimeType.None? && item.size.Some? && item.size.value > maxDownloadBytes then Err(ExportTooLarge)
      else
        match plan.extractor(bytes(item.id, item.modifiedTime, item.mimeType, plan.exportMimeType))
        case None => Err(ExtractionFailed)
        case Some(document) => Ok(document)
    }

    /** What a read would answer without a cache. */
    ghost function FreshRead(fileId: string, item: DriveItem, relativePath: string, cursor: Option<string>, maxChars: nat)
      : Result<ReadResult>
      requires maxChars >= 1
    {
      match DecodeCursor(cursor)
      case Err(e) => Err(e)
      case Ok(start) =>
        if plans(item.mimeType).None? then Err(UnsupportedContentType)
        else match FreshDocument(item)
          case Err(e) => Err(e)
          case Ok(document) =>
            ResultAt(document, fileId, item, relativePath, start, maxChars)
    }

    function ResultAt(
      document: ExtractedDocument, fileId: string, item: DriveItem, relativePath: string, start: nat, maxChars: nat)
      : Result<ReadResult>
      requires maxChars >= 1
    {
      if IsBlank(document.Text()) then Err(EmptyDocument)
      else if start > |document.Text()| then Err(InvalidCursor)
      else Ok(ReadResult(fileId, item.name, item.mimeType, relativePath,
                         ReadAt(document, start, maxChars, maxReadBytes), |document.Text()|))
    }

    /** The document such a read would parse, if it gets that far. */
    ghost function ParsedAfresh(item: DriveItem): Option<ExtractedDocument>
      requires plans(item.mimeType).Some?
    {
      var plan := plans(item.mimeType).value;
      plan.extractor(bytes(item.id, item.modifiedTime, item.mimeType, plan.exportMimeType))
    }

    /** Whether a direct download would be over the limit. */
    ghost predicate IsTooLarge(item: DriveItem)
      requires plans(item.mimeType).Some?
    {
      plans(item.mimeType).value.exportMimeType.None? && item.size.Some? && item.size.value > maxDownloadBytes
    }

    /** What such a read answers, in full: each error exactly when it is due, in this order,
        and otherwise the item's own fields and the chunk the cursor asks for. */
    lemma FreshReadExactly(fileId: string, item: DriveItem, relativePath: string, cursor: Option<string>, maxChars: nat)
      requires maxChars >= 1
      ensures var r := FreshRead(fileId, item, relativePath, cursor, maxChars);
              if DecodeCursor(cursor).Err? then r == Err(InvalidCursor)
              else if plans(item.mimeType).None? then r == Err(UnsupportedContentType)
              else if IsTooLarge(item) then r == Err(ExportTooLarge)
              else if ParsedAfresh(item).None? then r == Err(ExtractionFailed)
              else
                var text, start := ParsedAfresh(item).value.Text(), DecodeCursor(cursor).value;
                if forall c :: c in text ==> Whitespace.IsSpace(c) then r == Err(EmptyDocument)
                else if start > |text| then r == Err(InvalidCursor)
                else r.Ok? && Answers(r.value, fileId, item, relativePath, ParsedAfresh(item).value, start, maxChars)
    {
      if plans(item.mimeType).Some? && ParsedAfresh(item).Some? {
        var document := ParsedAfresh(item).value;
        BlankIsAllSpace(document.Text());
        if DecodeCursor(cursor).Ok? && DecodeCursor(cursor).value <= |document.Text()| {
          ChunkCarries(document, DecodeCursor(cursor).value, maxChars, maxReadBytes);
        }
      }
    }

    /** The answer to a read that starts at `start`. */
    ghost predicate Answers(
      r: ReadResult, fileId: string, item: DriveItem, relativePath: string, document: ExtractedDocument, start: nat,
      maxChars: nat)
      requires start <= |document.Text()| && maxChars >= 1
    {
      var text, end := document.Text(), ChunkEnd(document, start, maxChars, maxReadBytes);
      && r.id == fileId && r.name == item.name && r.mimeType == item.mimeType && r.relativePath == relativePath
      && r.totalChars == |text|
      && start <= end <= |text|
      && r.chunk.content == text[start..end]
      && (r.chunk.nextCursor.None? <==> end == |text|)
      && (r.chunk.nextCursor.Some? ==> DecodeCursor(r.chunk.nextCursor) == Ok(end))
      && AreLocations(document.blocks, start, end, r.chunk.locations)
    }

    /** The last steps of a read: an empty document is reported ahead of a bad offset. */
    method Answered(
      document: ExtractedDocument, fileId: string, item: DriveItem, relativePath: string, start: nat, maxChars: nat)
      returns (r: Result<ReadResult>)
      requires maxChars >= 1
      ensures r == ResultAt(document, fileId, item, relativePath, start, maxChars)
    {
      if IsBlank(document.Text()) {
        return Err(EmptyDocument);
      }
      var chunk;
      ghost var end;
      chunk, end := ReadChunk(document, start, maxChars, maxReadBytes);
      if chunk.Err? {
        return Err(chunk.error);
      }
      r := Ok(ReadResult(fileId, item.name, item.mimeType, relativePath, chunk.value, |document.Text()|));
    }

    /** Every cached document is what reading its version afresh would give. */
    ghost predicate Coherent()
      reads this
    {
      forall e :: e in cache ==> Fresh(e.key) == Some(e.document)
    }

    /** The cache holds exactly the versions most recently answered, `cacheSize` of them at
        most, in the order of their last use. */
    lemma CacheHoldsTheMostRecent()
      requires Valid()
      ensures Keys(cache) == Lru.LastN(Lru.ByLastUse(Lru.Answered(history, cacheSize)), cacheSize)
      ensures |cache| <= cacheSize && Lru.Distinct(Keys(cache))
    {
      Lru.CacheIsMostRecent(history, cacheSize);
      Lru.CacheIsDistinct(history, cacheSize);
    }

    /** One more read keeps the cache that of the history, and the count that of its fetches. */
    lemma OneMoreRead(before: seq<Lru.Use<Key>>, use: Lru.Use<Key>)
      ensures Lru.Run(before + [use], cacheSize) == Lru.Touch(Lru.Run(before, cacheSize), use, cacheSize)
      ensures Lru.Downloads(before + [use], cacheSize) == Lru.Downloads(before, cacheSize)
              + if use.key !in Lru.Run(before, cacheSize) && use.admitted then 1 else 0
    {
      assert (before + [use])[..|before|] == before;
    }

    /** Puts a document into the cache and evicts what is over its size. */
    method Remember(key: Key, document: ExtractedDocument)
      modifies this`cache
      ensures cache == Stored(old(cache), Entry(key, document), cacheSize)
    {
      cache := cache + [Entry(key, document)];
      ghost var grown := cache;
      while |cache| > cacheSize
        invariant Lru.LastN(cache, cacheSize) == Lru.LastN(grown, cacheSize)
        decreases |cache|
      {
        cache := cache[1..];
      }
    }

    /** The miss half of `_extracted`: the guard, the download, the parser. */
    method Fetched(authorized: AuthorizedItem, plan: Plan) returns (r: Result<ExtractedDocument>)
      requires scopedDrive.Valid()
      modifies scopedDrive.gateway`fetches
      ensures var use := UseOf(authorized, plan);
              && (r.Ok? <==> use.admitted && use.loads)
              && scopedDrive.gateway.fetches == old(scopedDrive.gateway.fetches)
                 + if use.admitted then [FetchOf(authorized.item.id, plan)] else []
      ensures IsOversized(authorized.item, plan, maxDownloadBytes) ==>
                r == Err(ExportTooLarge) && scopedDrive.gateway.fetches == old(scopedDrive.gateway.fetches)
      ensures authorized in scopedDrive.issued && IsUnmoved(authorized.item)
              && !IsOversized(authorized.item, plan, maxDownloadBytes) ==>
                r == Parsed(plan, scopedDrive.gateway.content(authorized.item, plan.exportMimeType))
    {
      if IsOversized(authorized.item, plan, maxDownloadBytes) {
        return Err(ExportTooLarge);
      }
      var content := scopedDrive.Download(authorized, plan.exportMimeType);
      if content.Err? {
        return Err(content.error);
      }
      r := Parsed(plan, content.value);
    }

    /** `_extracted`: the parsed document, from the cache if this exact version is in it. */
    method Extracted(authorized: AuthorizedItem, plan: Plan) returns (r: Result<ExtractedDocument>)
      requires Valid() && scopedDrive.Valid() && plans(authorized.item.mimeType) == Some(plan)
      modifies this`cache, this`history, this`fetched, scopedDrive.gateway`fetches
      ensures Valid() && history == old(history) + [UseOf(authorized, plan)]
      ensures fetched - old(fetched) == |scopedDrive.gateway.fetches| - |old(scopedDrive.gateway.fetches)|
      ensures var key, use := KeyOf(authorized.item), UseOf(authorized, plan);
              if key in Keys(old(cache)) then
                && r == Ok(Get(old(cache), key).value)
                && cache == Hit(old(cache), key)
                && scopedDrive.gateway.fetches == old(scopedDrive.gateway.fetches)
              else
                && (r.Ok? <==> use.admitted && use.loads)
                && cache == (if r.Ok? then Stored(old(cache), Entry(key, r.value), cacheSize) else old(cache))
                && scopedDrive.gateway.fetches == old(scopedDrive.gateway.fetches)
                   + if use.admitted then [FetchOf(authorized.item.id, plan)] else []
      ensures old(Coherent()) && Versioned() && IsUnmoved(authorized.item) ==>
                && Coherent() && (r.Ok? ==> Fresh(KeyOf(authorized.item)) == Some(r.value))
                && (authorized in scopedDrive.issued
                    && (KeyOf(authorized.item) in Keys(old(cache)) ==> !IsOversized(authorized.item, plan, maxDownloadBytes)) ==>
                      r == FreshDocument(authorized.item))
    {
      var key := KeyOf(authorized.item);
      ghost var use := UseOf(authorized, plan);
      OneMoreRead(history, use);
      history := history + [use];
      var cached := Get(cache, key);
      if cached.Some? {
        HitTouches(cache, use, cacheSize);
        cache := Hit(cache, key);
        return Ok(cached.value);
      }
      r := Fetched(authorized, plan);
      if use.admitted {
        fetched := fetched + 1;
      }
      if r.Ok? {
        StoredTouches(cache, Entry(key, r.value), cacheSize);
        Remember(key, r.value);
      }
    }

    /** Drive still answers with the version that was authorized. */
    ghost predicate IsUnmoved(item: DriveItem)
      reads scopedDrive.gateway`items
    {
      item.id in scopedDrive.gateway.items && scopedDrive.gateway.items[item.id] == item
    }

    /** The rest of a read, once the item is proven: what a read without a cache would
        answer. */
    method ReadProven(fileId: string, authorized: AuthorizedItem, cursor: Option<string>, maxChars: nat)
      returns (r: Result<ReadResult>)
      requires Valid() && scopedDrive.Valid() && authorized in scopedDrive.issued && maxChars >= 1
      modifies this`cache, this`history, this`fetched, scopedDrive.gateway`fetches
      ensures Valid()
      ensures fetched - old(fetched) == |scopedDrive.gateway.fetches| - |old(scopedDrive.gateway.fetches)|
      ensures var before, after := old(scopedDrive.gateway.fetches), scopedDrive.gateway.fetches;
              after != before ==>
                && DecodeCursor(cursor).Ok? && plans(authorized.item.mimeType).Some?
                && KeyOf(authorized.item) !in Keys(old(cache))
                && after == before + [FetchOf(authorized.item.id, plans(authorized.item.mimeType).value)]
      ensures DecodeCursor(cursor).Err? ==> r == Err(InvalidCursor) && cache == old(cache)
      ensures old(Coherent()) && Versioned() && IsUnmoved(authorized.item) ==>
                Coherent() && (!OutOfDate(authorized.item, old(cache)) ==>
                  r == FreshRead(fileId, authorized.item, authorized.relativePath, cursor, maxChars))
    {
      var start := DecodeCursor(cursor);
      if start.Err? {
        return Err(start.error);
      }
      var item := authorized.item;
      var plan := plans(item.mimeType);
      if plan.None? {
        return Err(UnsupportedContentType);
      }
      var extracted := Extracted(authorized, plan.value);
      if extracted.Err? {
        return Err(extracted.error);
      }
      r := Answered(extracted.value, fileId, item, authorized.relativePath, start.value, maxChars);
    }

    /** A cached version whose item is by now over the download limit. */
    ghost predicate OutOfDate(item: DriveItem, cached: seq<Entry>) {
      && KeyOf(item) in Keys(cached) && plans(item.mimeType).Some?
      && IsOversized(item, plans(item.mimeType).value, maxDownloadBytes)
    }

    /** `read_document`. One proof is made in the call itself, before anything is read or
        served, cached or not; a bad cursor costs no download; and the answer is what a read
        without a cache would give. */
    method ReadDocument(fileId: string, cursor: Option<string>, maxChars: int)
      returns (r: Result<ReadResult>, ghost proof: Option<AuthorizedItem>)
      requires Valid() && scopedDrive.Valid()
      modifies this, scopedDrive, scopedDrive.clock, scopedDrive.gateway`fetches
      ensures Valid() && scopedDrive.Valid()
      ensures fetched - old(fetched) == |scopedDrive.gateway.fetches| - |old(scopedDrive.gateway.fetches)|
      ensures !(1 <= maxChars <= maxReadChars) ==> r == Err(InvalidArgument)
      ensures proof.Some? ==>
                && 1 <= maxChars <= maxReadChars
                && fresh(proof.value) && proof.value in scopedDrive.issued
                && scopedDrive.location.Some? && fileId in scopedDrive.gateway.items
                && proof.value.item == scopedDrive.gateway.items[fileId]
                && !proof.value.item.trashed && proof.value.item.canDownload
                && proof.value.item.mimeType != FOLDER_MIME_TYPE && proof.value.item.mimeType != SHORTCUT_MIME_TYPE
                && scopedDrive.location.value.Contains(proof.value.item.driveId) && |proof.value.item.parents| == 1
      ensures var before, after := old(scopedDrive.gateway.fetches), scopedDrive.gateway.fetches;
              after != before ==>
                && proof.Some? && DecodeCursor(cursor).Ok?
                && plans(proof.value.item.mimeType).Some?
                && KeyOf(proof.value.item) !in Keys(old(cache))
                && after == before + [FetchOf(proof.value.item.id, plans(proof.value.item.mimeType).value)]
      ensures proof.None? ==> r.Err? && cache == old(cache)
      ensures proof.None? && 1 <= maxChars <= maxReadChars ==> IsScopeError(r.error)
      ensures old(scopedDrive.Current()) && scopedDrive.CanEnumerate() && fileId in scopedDrive.gateway.items
              && 1 <= maxChars <= maxReadChars ==>
                (proof.Some? <==> scopedDrive.IsDocument(fileId))
      ensures old(Coherent()) && Versioned() && KeyedById(scopedDrive.gateway.items) ==>
                Coherent() && (proof.Some? && !OutOfDate(proof.value.item, old(cache)) ==>
                  r == FreshRead(fileId, proof.value.item, proof.value.relativePath, cursor, maxChars))
    {
      proof := None;
      if !(1 <= maxChars <= maxReadChars) {
        return Err(InvalidArgument), proof;
      }
      var authorized;
      ghost var used;
      authorized, used := scopedDrive.AuthorizeDocument(fileId);
      if authorized.Err? {
        return Err(authorized.error), proof;
      }
      proof := Some(authorized.value);
      r := ReadProven(fileId, authorized.value, cursor, maxChars);
    }

    /** `list_folder`: the page of the listing that the cursor names. `items` is that listing,
        whenever the scope gave one, whether or not the cursor then names a page of it. */
    method ListFolder(folderId: Option<string>, cursor: Option<string>, limit: int)
      returns (r: Result<FolderPage>, ghost items: Option<seq<ScopedItem>>, ghost path: string)
      requires scopedDrive.Valid()
      modifies scopedDrive, scopedDrive.clock
      ensures scopedDrive.Valid()
      ensures !(1 <= limit <= 200) ==> r == Err(InvalidArgument)
      ensures items.Some? ==> 1 <= limit <= 200 && IsListingOf(folderId, path, items.value) && r == PageOf(items.value, cursor, limit)
      ensures items.None? ==> r.Err? && (1 <= limit <= 200 ==> IsScopeError(r.error))
      ensures var folderId := scopedDrive.FolderAsked(folderId);
              1 <= limit <= 200 && old(scopedDrive.Current()) && scopedDrive.CanEnumerate()
              && folderId in scopedDrive.gateway.items ==>
                (items.Some? <==> scopedDrive.CanListFolder(folderId))
    {
      items, path := None, "";
      if !(1 <= limit <= 200) {
        return Err(InvalidArgument), items, path;
      }
      var listed;
      ghost var used;
      listed, path, used := scopedDrive.ListFolder(folderId);
      if listed.Err? {
        return Err(listed.error), items, path;
      }
      items := Some(listed.value);
      r := Sliced(listed.value, cursor, limit);
    }

    /** The safe children, completely listed, of the folder that was asked for. */
    ghost predicate IsListingOf(folderId: Option<string>, path: string, items: seq<ScopedItem>)
      reads scopedDrive`location, scopedDrive.gateway`items, scopedDrive.gateway`lists
    {
      var folderId := scopedDrive.FolderAsked(folderId);
      && folderId in scopedDrive.gateway.items
      && scopedDrive.AreChildren(scopedDrive.gateway.items[folderId].id, path, items)
    }

    /** The slice of a listing that the cursor names. */
    method Sliced(items: seq<ScopedItem>, cursor: Option<string>, limit: nat) returns (r: Result<FolderPage>)
      ensures r == PageOf(items, cursor, limit)
    {
      var start := DecodeCursor(cursor);
      if start.Err? {
        return Err(start.error);
      }
      if start.value > |items| {
        return Err(InvalidCursor);
      }
      var end := Min(start.value + limit, |items|);
      r := Ok(FolderPage(items[start.value..end], if end < |items| then Some(EncodeCursor(end)) else None));
    }
  }

  /** Two services that were asked the same, of which one has the larger cache: it fetched no
      more often. */
  lemma LargerCacheFetchesLess(a: Service, b: Service)
    requires a.Valid() && b.Valid() && a.history == b.history && a.cacheSize <= b.cacheSize
    ensures b.fetched <= a.fetched
    ensures forall key :: key in Keys(a.cache) ==> key in Keys(b.cache)
  {
    Lru.LargerCacheDownloadsLess(a.history, a.cacheSize, b.cacheSize);
    Lru.LargerCacheIncludes(a.history, a.cacheSize, b.cacheSize);
  }

  /** A parser that raises is a failed extraction. */
  function Parsed(plan: Plan, content: Content): Result<ExtractedDocument> {
    match plan.extractor(content)
    case None => Err(ExtractionFailed)
    case Some(document) => Ok(document)
  }

  /** The guard on direct downloads. */
  predicate IsOversized(item: DriveItem, plan: Plan, maxDownloadBytes: int) {
    plan.exportMimeType.None? && item.size.Some? && item.size.value > maxDownloadBytes
  }

  function FetchOf(id: string, plan: Plan): Fetch {
    if plan.exportMimeType.None? then Download(id) else Export(id, plan.exportMimeType.value)
  }
}
