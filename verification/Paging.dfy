/** Reading a document in bounded chunks that prefer block boundaries. */
module Paging {
  import opened Outcomes
  import opened Cursor

  datatype TextBlock = TextBlock(location: string, text: string)

  const SEPARATOR := "\n\n"

  datatype ExtractedDocument = ExtractedDocument(blocks: seq<TextBlock>) {
    function Text(): string {
      Join(blocks)
    }
  }

  /** The blocks' texts joined by a blank line. */
  function Join(blocks: seq<TextBlock>): string {
    if blocks == [] then "" else
      var last := blocks[|blocks| - 1].text;
      if |blocks| == 1 then last else Join(blocks[..|blocks| - 1]) + SEPARATOR + last
  }

  /** Where block `k` starts in the joined text. */
  function BlockStart(blocks: seq<TextBlock>, k: nat): nat
    requires k <= |blocks|
  {
    if k == 0 then 0 else BlockStart(blocks, k - 1) + |blocks[k - 1].text| + |SEPARATOR|
  }

  function BlockEnd(blocks: seq<TextBlock>, k: nat): nat
    requires k < |blocks|
  {
    BlockStart(blocks, k) + |blocks[k].text|
  }

  lemma {:induction false} BlockStartOfPrefix(blocks: seq<TextBlock>, n: nat, k: nat)
    requires k <= n <= |blocks|
    ensures BlockStart(blocks[..n], k) == BlockStart(blocks, k)
  {
    if k > 0 {
      BlockStartOfPrefix(blocks, n, k - 1);
    }
  }

  lemma {:induction false} JoinLength(blocks: seq<TextBlock>)
    requires blocks != []
    ensures |Join(blocks)| == BlockEnd(blocks, |blocks| - 1)
  {
    var n := |blocks| - 1;
    if n > 0 {
      JoinLength(blocks[..n]);
      BlockStartOfPrefix(blocks, n, n - 1);
    }
  }

  /** Every block stands in the text at its start, and every block but the first right
      after a separator. */
  lemma {:induction false} BlocksInText(blocks: seq<TextBlock>, k: nat)
    requires k < |blocks|
    ensures BlockEnd(blocks, k) <= |Join(blocks)|
    ensures Join(blocks)[BlockStart(blocks, k)..BlockEnd(blocks, k)] == blocks[k].text
    ensures k > 0 ==> Join(blocks)[BlockEnd(blocks, k - 1)..BlockStart(blocks, k)] == "\n\n"
  {
    var n := |blocks| - 1;
    JoinLength(blocks);
    if n > 0 {
      var front := blocks[..n];
      JoinLength(front);
      BlockStartOfPrefix(blocks, n, n - 1);
      var text := Join(blocks);
      assert text == Join(front) + SEPARATOR + blocks[n].text;
      if k < n {
        BlocksInText(front, k);
        BlockStartOfPrefix(blocks, n, k);
        if k > 0 {
          BlockStartOfPrefix(blocks, n, k - 1);
        }
        assert forall i, j :: 0 <= i <= j <= |Join(front)| ==> text[i..j] == Join(front)[i..j];
      } else {
        assert text[BlockEnd(blocks, k - 1)..BlockStart(blocks, k)] == SEPARATOR;
      }
    }
  }

  lemma {:induction false} BlockStartsIncrease(blocks: seq<TextBlock>, j: nat, k: nat)
    requires j < k <= |blocks|
    ensures BlockEnd(blocks, j) + |SEPARATOR| <= BlockStart(blocks, k)
    decreases k
  {
    if j < k - 1 {
      BlockStartsIncrease(blocks, j, k - 1);
    }
  }

  // ---- Boundaries.

  /** `_block_boundaries`: the starts of the second and later blocks. */
  method BlockBoundaries(document: ExtractedDocument) returns (boundaries: seq<nat>)
    ensures boundaries == Boundaries(document.blocks)
  {
    boundaries := [];
    var offset := 0;
    var blocks := if document.blocks == [] then [] else document.blocks[..|document.blocks| - 1];
    for i := 0 to |blocks|
      invariant |boundaries| == i
      invariant i < |document.blocks| || blocks == []
      invariant offset == BlockStart(document.blocks, i)
      invariant forall k :: 0 <= k < i ==> boundaries[k] == BlockStart(document.blocks, k + 1)
    {
      offset := offset + |blocks[i].text| + 2;
      boundaries := boundaries + [offset];
    }
  }

  function Boundaries(blocks: seq<TextBlock>): (r: seq<nat>)
    ensures |r| == if blocks == [] then 0 else |blocks| - 1
  {
    seq(if blocks == [] then 0 else |blocks| - 1, k requires 0 <= k < |blocks| - 1 => BlockStart(blocks, k + 1))
  }

  /** Each boundary is the offset right after a separator where the next block begins;
      they strictly increase and lie inside the text. */
  lemma BoundariesAreBlockStarts(blocks: seq<TextBlock>)
    ensures var b := Boundaries(blocks);
            && (forall k :: 0 <= k < |b| ==> |SEPARATOR| <= b[k] <= |Join(blocks)|)
            && (forall k :: 0 <= k < |b| ==>
                  && Join(blocks)[b[k] - |SEPARATOR|..b[k]] == SEPARATOR
                  && blocks[k + 1].text <= Join(blocks)[b[k]..])
            && (forall j, k :: 0 <= j < k < |b| ==> b[j] < b[k])
  {
    var b, text := Boundaries(blocks), Join(blocks);
    forall k | 0 <= k < |b|
      ensures |SEPARATOR| <= b[k] <= |text|
      ensures text[b[k] - |SEPARATOR|..b[k]] == SEPARATOR && blocks[k + 1].text <= text[b[k]..]
    {
      BlocksInText(blocks, k + 1);
      var s, e := BlockStart(blocks, k + 1), BlockEnd(blocks, k + 1);
      assert text[s..][..e - s] == text[s..e];
    }
    forall j, k | 0 <= j < k < |b|
      ensures b[j] < b[k]
    {
      BlockStartsIncrease(blocks, j + 1, k + 1);
    }
  }

  /** The last boundary in `(start, end]`, or `end` itself. */
  function LastBoundary(boundaries: seq<nat>, start: nat, end: nat): nat {
    if boundaries == [] then end else
      var last := boundaries[|boundaries| - 1];
      if start < last <= end then last else LastBoundary(boundaries[..|boundaries| - 1], start, end)
  }

  ghost predicate Increasing(xs: seq<nat>) {
    forall j, k :: 0 <= j < k < |xs| ==> xs[j] < xs[k]
  }

  /** `cut` is the largest boundary in `(start, end]`, or `end` when there is none. */
  ghost predicate IsCut(boundaries: seq<nat>, start: nat, end: nat, cut: nat) {
    && (forall b :: b in boundaries && start < b <= end ==> b <= cut)
    && (if exists b :: b in boundaries && start < b <= end
        then cut in boundaries && start < cut <= end
        else cut == end)
  }

  lemma {:induction false} LastBoundaryIsCut(boundaries: seq<nat>, start: nat, end: nat)
    requires Increasing(boundaries)
    ensures IsCut(boundaries, start, end, LastBoundary(boundaries, start, end))
  {
    if boundaries != [] {
      var front, last := boundaries[..|boundaries| - 1], boundaries[|boundaries| - 1];
      LastBoundaryIsCut(front, start, end);
      assert forall b :: b in boundaries <==> b in front || b == last;
    }
  }

  // ---- Sizes. A character is a Unicode scalar value; section 3 of RFC 3629 gives its width.

  function Width(c: char): (r: nat)
    ensures 1 <= r <= 4
  {
    var code := c as int;
    if code < 0x80 then 1 else if code < 0x800 then 2 else if code < 0x10000 then 3 else 4
  }

  function EncodedLength(s: string): nat {
    if s == "" then 0 else EncodedLength(s[..|s| - 1]) + Width(s[|s| - 1])
  }

  /** Encoded length of `text[start..end]`. */
  function Bytes(text: string, start: nat, end: nat): nat
    requires start <= end <= |text|
  {
    EncodedLength(text[start..end])
  }

  /** A longer window encodes longer, by one to four bytes a character. */
  lemma {:induction false} BytesGrow(text: string, start: nat, mid: nat, end: nat)
    requires start <= mid <= end <= |text|
    ensures Bytes(text, start, mid) + (end - mid) <= Bytes(text, start, end)
    ensures Bytes(text, start, end) <= Bytes(text, start, mid) + 4 * (end - mid)
    decreases end
  {
    if mid < end {
      BytesGrow(text, start, mid, end - 1);
      assert text[start..end][..end - 1 - start] == text[start..end - 1];
    }
  }

  /** The longest end of a window from `start` that is at most `limit` and encodes within
      `maxBytes`; one character is always let through. */
  function LongestFit(text: string, start: nat, limit: nat, maxBytes: nat): (r: nat)
    requires start <= limit <= |text|
    ensures start <= r <= limit
    decreases limit
  {
    if limit <= start + 1 || Bytes(text, start, limit) <= maxBytes then limit
    else LongestFit(text, start, limit - 1, maxBytes)
  }

  /** Exactly the ends up to the fit are within both ceilings (one character apart). */
  lemma {:induction false} LongestFitExactly(text: string, start: nat, limit: nat, maxBytes: nat, end: nat)
    requires start + 1 < end <= limit <= |text|
    ensures Bytes(text, start, end) <= maxBytes <==> end <= LongestFit(text, start, limit, maxBytes)
    decreases limit
  {
    BytesGrow(text, start, end, limit);
    if end < limit {
      if Bytes(text, start, limit) > maxBytes {
        LongestFitExactly(text, start, limit - 1, maxBytes, end);
      }
    }
  }

  function Min(a: nat, b: nat): nat {
    if a < b then a else b
  }

  /** Where a chunk ends: the last boundary within the longest fit, or the fit itself. */
  function ChunkEnd(document: ExtractedDocument, start: nat, maxChars: nat, maxBytes: nat): nat
    requires start <= |document.Text()|
  {
    var text := document.Text();
    var fit := LongestFit(text, start, Min(start + maxChars, |text|), maxBytes);
    LastBoundary(Boundaries(document.blocks), start, fit)
  }

  datatype Chunk = Chunk(content: string, locations: seq<string>, nextCursor: Option<string>)

  /** `_read_chunk`. The byte-ceiling loop drops a quarter of the overshoot at a time and
      still ends exactly at `ChunkEnd`. */
  method ReadChunk(document: ExtractedDocument, start: int, maxChars: nat, maxBytes: nat)
    returns (r: Result<Chunk>, ghost end: nat)
    requires maxChars >= 1
    ensures r.Err? <==> start < 0 || start > |document.Text()|
    ensures r.Err? ==> r.error == InvalidCursor
    ensures r.Ok? ==>
              && start <= end <= |document.Text()|
              && end == ChunkEnd(document, start, maxChars, maxBytes)
              && r.value == ChunkOf(document, start, end)
    ensures r.Ok? ==>
              && r.value.content == document.Text()[start..end]
              && (r.value.nextCursor.None? <==> end == |document.Text()|)
              && (r.value.nextCursor.Some? ==> DecodeCursor(r.value.nextCursor) == Ok(end))
              && AreLocations(document.blocks, start, end, r.value.locations)
  {
    var text := document.Text();
    end := 0;
    if start < 0 || start > |text| {
      return Err(InvalidCursor), end;
    }
    var stop := StopAt(document, start, maxChars, maxBytes);
    end := stop;
    var nextCursor := if stop < |text| then Some(EncodeCursor(stop)) else None;
    var locations := LocationsForRange(document, start, stop);
    ChunkCarries(document, start, maxChars, maxBytes);
    r := Ok(Chunk(text[start..stop], locations, nextCursor));
  }

  /** The shrinking loop. */
  method StopAt(document: ExtractedDocument, start: nat, maxChars: nat, maxBytes: nat) returns (stop: nat)
    requires start <= |document.Text()| && maxChars >= 1
    ensures stop == ChunkEnd(document, start, maxChars, maxBytes)
  {
    var text := document.Text();
    var boundaries := BlockBoundaries(document);
    var limit := Min(start + maxChars, |text|);
    ghost var fit := LongestFit(text, start, limit, maxBytes);
    ghost var uncut: nat := limit;
    CutBounds(document, start, limit);
    stop := LastBoundary(boundaries, start, limit);
    while stop > start + 1 && EncodedLength(text[start..stop]) > maxBytes
      invariant start <= stop <= uncut <= limit
      invariant fit <= uncut
      invariant stop == LastBoundary(boundaries, start, uncut)
      decreases stop
    {
      var overshoot := EncodedLength(text[start..stop]) - maxBytes;
      var drop := if overshoot / 4 > 1 then overshoot / 4 else 1;
      DropKeepsTheFit(text, start, limit, maxBytes, stop);
      var shorter := if stop - drop > start + 1 then stop - drop else start + 1;
      uncut := shorter;
      CutBounds(document, start, shorter);
      stop := LastBoundary(boundaries, start, shorter);
    }
    StopIsTheCutOfTheFit(document, start, limit, maxBytes, uncut, stop);
  }

  /** A chunk that ends where it should carries what it should. */
  lemma ChunkCarries(document: ExtractedDocument, start: nat, maxChars: nat, maxBytes: nat)
    requires start <= |document.Text()| && maxChars >= 1
    ensures var end := ChunkEnd(document, start, maxChars, maxBytes);
            && start <= end <= |document.Text()|
            && var chunk := ChunkOf(document, start, end);
            && chunk.content == document.Text()[start..end]
            && (chunk.nextCursor.None? <==> end == |document.Text()|)
            && (chunk.nextCursor.Some? ==> DecodeCursor(chunk.nextCursor) == Ok(end))
            && AreLocations(document.blocks, start, end, chunk.locations)
  {
    ChunkStep(document, start, maxChars, maxBytes);
    var end := ChunkEnd(document, start, maxChars, maxBytes);
    PageLocations(document, start, end);
    CursorRoundTrip(end);
  }

  /** What a chunk from `start` to `end` carries. */
  function ChunkOf(document: ExtractedDocument, start: nat, end: nat): Chunk
    requires start <= end <= |document.Text()|
  {
    Chunk(document.Text()[start..end],
          Locations(document.blocks, Touched(document.blocks, start, end, |document.blocks|)),
          if end < |document.Text()| then Some(EncodeCursor(end)) else None)
  }

  lemma CutBounds(document: ExtractedDocument, start: nat, end: nat)
    requires start <= end
    ensures var cut := LastBoundary(Boundaries(document.blocks), start, end);
            && start <= cut <= end && (start < end ==> start < cut)
            && IsCut(Boundaries(document.blocks), start, end, cut)
  {
    BoundariesAreBlockStarts(document.blocks);
    LastBoundaryIsCut(Boundaries(document.blocks), start, end);
  }

  /** A window that overshoots ends past the fit, and dropping `max(1, overshoot // 4)`
      characters of it, down to one, never skips past the fit. */
  lemma DropKeepsTheFit(text: string, start: nat, limit: nat, maxBytes: nat, stop: nat)
    requires start + 1 < stop <= limit <= |text|
    requires EncodedLength(text[start..stop]) > maxBytes
    ensures var overshoot := EncodedLength(text[start..stop]) - maxBytes;
            var fit := LongestFit(text, start, limit, maxBytes);
            && fit < stop
            && (fit <= start + 1 || fit + (if overshoot / 4 > 1 then overshoot / 4 else 1) <= stop)
  {
    var fit := LongestFit(text, start, limit, maxBytes);
    LongestFitExactly(text, start, limit, maxBytes, stop);
    if fit > start + 1 {
      LongestFitExactly(text, start, limit, maxBytes, fit);
      BytesGrow(text, start, fit, stop);
      assert EncodedLength(text[start..stop]) == Bytes(text, start, stop);
    }
  }

  lemma StopIsTheCutOfTheFit(
    document: ExtractedDocument, start: nat, limit: nat, maxBytes: nat, uncut: nat, stop: nat)
    requires start <= stop <= uncut <= limit <= |document.Text()|
    requires LongestFit(document.Text(), start, limit, maxBytes) <= uncut
    requires stop == LastBoundary(Boundaries(document.blocks), start, uncut)
    requires stop <= start + 1 || Bytes(document.Text(), start, stop) <= maxBytes
    ensures stop == LastBoundary(Boundaries(document.blocks), start, LongestFit(document.Text(), start, limit, maxBytes))
  {
    var fit := LongestFit(document.Text(), start, limit, maxBytes);
    FitIsPositive(document.Text(), start, limit, maxBytes);
    if stop > start + 1 {
      LongestFitExactly(document.Text(), start, limit, maxBytes, stop);
    }
    assert stop <= fit;
    CutBounds(document, start, uncut);
    CutBounds(document, start, fit);
  }

  lemma {:induction false} FitIsPositive(text: string, start: nat, limit: nat, maxBytes: nat)
    requires start <= limit <= |text|
    ensures start < limit ==> start < LongestFit(text, start, limit, maxBytes)
    decreases limit
  {
    if limit > start + 1 {
      FitIsPositive(text, start, limit - 1, maxBytes);
    }
  }

  /** The whole meaning of a chunk's end, in terms of characters, bytes and boundaries. */
  lemma ChunkEndMeaning(document: ExtractedDocument, start: nat, maxChars: nat, maxBytes: nat)
    requires start <= |document.Text()| && maxChars >= 1
    ensures var text, end := document.Text(), ChunkEnd(document, start, maxChars, maxBytes);
            && start <= end <= Min(start + maxChars, |text|)
            && (start < |text| ==> start < end)
            && (end > start + 1 ==> Bytes(text, start, end) <= maxBytes)
            && exists fit :: IsFit(text, start, maxChars, maxBytes, fit) && IsCut(Boundaries(document.blocks), start, fit, end)
  {
    var text := document.Text();
    var limit := Min(start + maxChars, |text|);
    var fit := LongestFit(text, start, limit, maxBytes);
    var end := ChunkEnd(document, start, maxChars, maxBytes);
    FitIsPositive(text, start, limit, maxBytes);
    CutBounds(document, start, fit);
    if end > start + 1 {
      LongestFitExactly(text, start, limit, maxBytes, end);
    }
    forall e | start + 1 < e <= limit
      ensures Bytes(text, start, e) <= maxBytes <==> e <= fit
    {
      LongestFitExactly(text, start, limit, maxBytes, e);
    }
    assert IsFit(text, start, maxChars, maxBytes, fit);
  }

  /** `fit` is the longest end within `maxChars` characters and `maxBytes` bytes, one
      character being always allowed. */
  ghost predicate IsFit(text: string, start: nat, maxChars: nat, maxBytes: nat, fit: nat)
    requires start <= |text|
  {
    var limit := Min(start + maxChars, |text|);
    && Min(start + 1, limit) <= fit <= limit
    && forall e :: start + 1 < e <= limit ==> (Bytes(text, start, e) <= maxBytes <==> e <= fit)
  }

  /** A chunk reaches the end of the text exactly when the rest fits and either no block
      begins strictly inside it or the last block is empty. So a remainder of several
      blocks is cut even when all of it fits. */
  lemma LastChunkExactly(document: ExtractedDocument, start: nat, maxChars: nat, maxBytes: nat)
    requires start <= |document.Text()| && maxChars >= 1
    ensures var text, boundaries := document.Text(), Boundaries(document.blocks);
            ChunkEnd(document, start, maxChars, maxBytes) == |text| <==>
            && LongestFit(text, start, Min(start + maxChars, |text|), maxBytes) == |text|
            && (|text| in boundaries || forall b :: b in boundaries ==> !(start < b < |text|))
  {
    var fit := LongestFit(document.Text(), start, Min(start + maxChars, |document.Text()|), maxBytes);
    CutBounds(document, start, fit);
  }

  // ---- Locations.

  /** The rule of `_locations_for_range` for one block. */
  predicate Touches(blocks: seq<TextBlock>, start: nat, end: nat, k: nat)
    requires k < |blocks|
  {
    start < BlockEnd(blocks, k) && end > BlockStart(blocks, k)
  }

  /** The blocks below `n` that a range touches, in order. */
  function Touched(blocks: seq<TextBlock>, start: nat, end: nat, n: nat): (r: seq<nat>)
    requires n <= |blocks|
    ensures forall k :: k in r ==> k < n
  {
    if n == 0 then [] else
      Touched(blocks, start, end, n - 1) + if Touches(blocks, start, end, n - 1) then [n - 1] else []
  }

  function Locations(blocks: seq<TextBlock>, at: seq<nat>): (r: seq<string>)
    requires forall k :: k in at ==> k < |blocks|
    ensures |r| == |at|
  {
    seq(|at|, i requires 0 <= i < |at| => assert at[i] in at; blocks[at[i]].location)
  }

  method LocationsForRange(document: ExtractedDocument, start: nat, end: nat) returns (locations: seq<string>)
    ensures locations == Locations(document.blocks, Touched(document.blocks, start, end, |document.blocks|))
  {
    locations := [];
    var offset := 0;
    for k := 0 to |document.blocks|
      invariant offset == BlockStart(document.blocks, k)
      invariant locations == Locations(document.blocks, Touched(document.blocks, start, end, k))
    {
      var blockEnd := offset + |document.blocks[k].text|;
      if start < blockEnd && end > offset {
        locations := locations + [document.blocks[k].location];
      }
      offset := blockEnd + 2;
    }
  }

  /** A range lists its blocks in document order, each once, by the rule above. */
  lemma {:induction false} TouchedInOrder(blocks: seq<TextBlock>, start: nat, end: nat, n: nat)
    requires n <= |blocks|
    ensures Increasing(Touched(blocks, start, end, n))
    ensures forall k :: k in Touched(blocks, start, end, n) <==> 0 <= k < n && Touches(blocks, start, end, k)
  {
    if n > 0 {
      TouchedInOrder(blocks, start, end, n - 1);
      var front := Touched(blocks, start, end, n - 1);
      forall i | 0 <= i < |front|
        ensures front[i] < n - 1
      {
        assert front[i] in front;
      }
    }
  }

  /** The locations of exactly the blocks that are on the page, in document order: those with
      a character on it, and empty ones strictly inside it. */
  ghost predicate AreLocations(blocks: seq<TextBlock>, start: nat, end: nat, locations: seq<string>) {
    exists ks: seq<nat> ::
      && |ks| == |locations|
      && (forall i, j :: 0 <= i < j < |ks| ==> ks[i] < ks[j])
      && (forall i :: 0 <= i < |ks| ==> ks[i] < |blocks| && locations[i] == blocks[ks[i]].location)
      && (forall k: nat :: k in ks <==> k < |blocks| && IsOnPage(blocks, start, end, k))
  }

  ghost predicate IsOnPage(blocks: seq<TextBlock>, start: nat, end: nat, k: nat)
    requires k < |blocks|
  {
    || (exists c :: Shares(blocks, start, end, k, c))
    || (blocks[k].text == "" && start < BlockStart(blocks, k) < end)
  }

  lemma PageLocations(document: ExtractedDocument, start: nat, end: nat)
    requires start <= end <= |document.Text()| && (start == end ==> start == |document.Text()|)
    ensures var blocks := document.blocks;
            AreLocations(blocks, start, end, Locations(blocks, Touched(blocks, start, end, |blocks|)))
  {
    var blocks := document.blocks;
    var ks := Touched(blocks, start, end, |blocks|);
    TouchedInOrder(blocks, start, end, |blocks|);
    forall k: nat | k < |blocks|
      ensures Touches(blocks, start, end, k) <==> IsOnPage(blocks, start, end, k)
    {
      if start < end {
        TouchesMeaning(blocks, start, end, k);
      } else {
        BlocksInText(blocks, k);
      }
    }
    LocationsAre(blocks, ks);
  }

  lemma LocationsAre(blocks: seq<TextBlock>, at: seq<nat>)
    requires forall k :: k in at ==> k < |blocks|
    ensures forall i :: 0 <= i < |at| ==> at[i] < |blocks| && Locations(blocks, at)[i] == blocks[at[i]].location
  {
    assert forall i :: 0 <= i < |at| ==> at[i] in at;
  }

  /** Character `c` of the text is in the range and in block `k`. */
  predicate Shares(blocks: seq<TextBlock>, start: nat, end: nat, k: nat, c: nat)
    requires k < |blocks|
  {
    start <= c < end && BlockStart(blocks, k) <= c < BlockEnd(blocks, k)
  }

  /** A block with text is listed exactly when one of its characters is in the range, an
      empty one exactly when it stands strictly inside the range. */
  lemma TouchesMeaning(blocks: seq<TextBlock>, start: nat, end: nat, k: nat)
    requires k < |blocks| && start < end
    ensures Touches(blocks, start, end, k) <==>
            if blocks[k].text != "" then exists c :: Shares(blocks, start, end, k, c)
            else start < BlockStart(blocks, k) < end
  {
    var first := if start > BlockStart(blocks, k) then start else BlockStart(blocks, k);
    if blocks[k].text != "" && Touches(blocks, start, end, k) {
      assert Shares(blocks, start, end, k, first);
    }
  }

  lemma ChunkStep(document: ExtractedDocument, start: nat, maxChars: nat, maxBytes: nat)
    requires start <= |document.Text()| && maxChars >= 1
    ensures var end := ChunkEnd(document, start, maxChars, maxBytes);
            && start <= end <= |document.Text()|
            && (start < |document.Text()| ==> start < end)
            && (end > start + 1 ==> Bytes(document.Text(), start, end) <= maxBytes)
  {
    ChunkEndMeaning(document, start, maxChars, maxBytes);
  }

  // ---- Reading on: the caller follows `next_cursor`, choosing a size for every page.

  /** The pages from `start` on, `ask(p)` being the size asked for on page `p`. */
  ghost function PagesFrom(document: ExtractedDocument, start: nat, ask: nat -> nat, p: nat, maxBytes: nat): seq<string>
    requires forall q :: ask(q) >= 1
    requires start < |document.Text()|
    decreases |document.Text()| - start
  {
    var end := ChunkEnd(document, start, ask(p), maxBytes);
    ChunkStep(document, start, ask(p), maxBytes);
    [document.Text()[start..end]]
    + if end < |document.Text()| then PagesFrom(document, end, ask, p + 1, maxBytes) else []
  }

  /** The same run as the caller makes it: `offset` is what a request makes of its cursor,
      and each request carries the cursor of the last answer. */
  ghost predicate IsRun(
    document: ExtractedDocument, offset: Option<string> -> Result<nat>, cursor: Option<string>,
    ask: nat -> nat, p: nat, maxBytes: nat, pages: seq<Chunk>)
    requires forall q :: ask(q) >= 1
    decreases |pages|
  {
    && pages != []
    && offset(cursor).Ok?
    && offset(cursor).value <= |document.Text()|
    && pages[0] == ReadAt(document, offset(cursor).value, ask(p), maxBytes)
    && if pages[0].nextCursor.None? then |pages| == 1
       else IsRun(document, offset, pages[0].nextCursor, ask, p + 1, maxBytes, pages[1..])
  }

  /** The chunk `_read_chunk` answers with. */
  function ReadAt(document: ExtractedDocument, start: nat, maxChars: nat, maxBytes: nat): Chunk
    requires start <= |document.Text()| && maxChars >= 1
  {
    ChunkStep(document, start, maxChars, maxBytes);
    ChunkOf(document, start, ChunkEnd(document, start, maxChars, maxBytes))
  }

  lemma ReadAtStep(document: ExtractedDocument, start: nat, maxChars: nat, maxBytes: nat) returns (end: nat)
    requires start < |document.Text()| && maxChars >= 1
    ensures end == ChunkEnd(document, start, maxChars, maxBytes) && start < end <= |document.Text()|
    ensures var chunk := ReadAt(document, start, maxChars, maxBytes);
            && chunk.content == document.Text()[start..end]
            && chunk.nextCursor == if end < |document.Text()| then Some(EncodeCursor(end)) else None
  {
    ChunkStep(document, start, maxChars, maxBytes);
    end := ChunkEnd(document, start, maxChars, maxBytes);
  }

  /** Every cursor a page can carry is read as the offset it was printed from. */
  ghost predicate Inverts(offset: Option<string> -> Result<nat>) {
    forall end: nat :: offset(Some(EncodeCursor(end))) == Ok(end)
  }

  lemma DecodeInverts()
    ensures Inverts(DecodeCursor)
  {
    forall end: nat
      ensures DecodeCursor(Some(EncodeCursor(end))) == Ok(end)
    {
      CursorRoundTrip(end);
    }
  }

  function Contents(pages: seq<Chunk>): seq<string> {
    seq(|pages|, i requires 0 <= i < |pages| => pages[i].content)
  }

  lemma ContentsCons(pages: seq<Chunk>)
    requires pages != []
    ensures Contents(pages) == [pages[0].content] + Contents(pages[1..])
  {
  }

  lemma RunStep(
    document: ExtractedDocument, offset: Option<string> -> Result<nat>, cursor: Option<string>, start: nat,
    ask: nat -> nat, p: nat, maxBytes: nat, pages: seq<Chunk>)
    returns (end: nat)
    requires forall q :: ask(q) >= 1
    requires Inverts(offset)
    requires offset(cursor) == Ok(start) && start < |document.Text()|
    requires IsRun(document, offset, cursor, ask, p, maxBytes, pages)
    ensures end == ChunkEnd(document, start, ask(p), maxBytes) && start < end <= |document.Text()|
    ensures pages != [] && pages[0].content == document.Text()[start..end]
    ensures if end < |document.Text()| then
              && offset(pages[0].nextCursor) == Ok(end)
              && IsRun(document, offset, pages[0].nextCursor, ask, p + 1, maxBytes, pages[1..])
            else pages[1..] == []
  {
    end := ReadAtStep(document, start, ask(p), maxBytes);
  }

  /** A run by cursors reads exactly the pages by offsets. */
  lemma {:induction false} RunReadsPages(
    document: ExtractedDocument, offset: Option<string> -> Result<nat>, cursor: Option<string>, start: nat,
    ask: nat -> nat, p: nat, maxBytes: nat, pages: seq<Chunk>)
    requires forall q :: ask(q) >= 1
    requires Inverts(offset)
    requires offset(cursor) == Ok(start) && start < |document.Text()|
    requires IsRun(document, offset, cursor, ask, p, maxBytes, pages)
    ensures Contents(pages) == PagesFrom(document, start, ask, p, maxBytes)
    decreases |pages|
  {
    var end := RunStep(document, offset, cursor, start, ask, p, maxBytes, pages);
    if end < |document.Text()| {
      RunReadsPages(document, offset, pages[0].nextCursor, end, ask, p + 1, maxBytes, pages[1..]);
    }
    ContentsCons(pages);
  }

  /** And there is such a run: following `next_cursor` terminates. */
  lemma {:induction false} RunExists(
    document: ExtractedDocument, offset: Option<string> -> Result<nat>, cursor: Option<string>, start: nat,
    ask: nat -> nat, p: nat, maxBytes: nat)
    returns (pages: seq<Chunk>)
    requires forall q :: ask(q) >= 1
    requires Inverts(offset)
    requires offset(cursor) == Ok(start) && start < |document.Text()|
    ensures IsRun(document, offset, cursor, ask, p, maxBytes, pages)
    decreases |document.Text()| - start
  {
    var end := ReadAtStep(document, start, ask(p), maxBytes);
    var chunk := ReadAt(document, start, ask(p), maxBytes);
    if chunk.nextCursor.None? {
      pages := [chunk];
    } else {
      assert offset(chunk.nextCursor) == Ok(end);
      var rest := RunExists(document, offset, chunk.nextCursor, end, ask, p + 1, maxBytes);
      pages := [chunk] + rest;
      assert pages[1..] == rest;
    }
  }

  function Concat(pages: seq<string>): string {
    if pages == [] then "" else pages[0] + Concat(pages[1..])
  }

  lemma {:induction false} PagesAreTheText(
    document: ExtractedDocument, start: nat, ask: nat -> nat, p: nat, maxBytes: nat)
    requires forall q :: ask(q) >= 1
    requires start < |document.Text()|
    ensures Concat(PagesFrom(document, start, ask, p, maxBytes)) == document.Text()[start..]
    decreases |document.Text()| - start
  {
    var text := document.Text();
    var end := ChunkEnd(document, start, ask(p), maxBytes);
    ChunkStep(document, start, ask(p), maxBytes);
    var rest := if end < |text| then PagesFrom(document, end, ask, p + 1, maxBytes) else [];
    if end < |text| {
      PagesAreTheText(document, end, ask, p + 1, maxBytes);
    }
    ConcatCons(text, start, end, rest);
  }

  lemma ConcatCons(text: string, start: nat, end: nat, rest: seq<string>)
    requires start <= end <= |text| && Concat(rest) == text[end..]
    ensures Concat([text[start..end]] + rest) == text[start..]
  {
    assert ([text[start..end]] + rest)[1..] == rest;
    assert text[start..] == text[start..end] + text[end..];
  }

  lemma {:induction false} PagesAreBounded(
    document: ExtractedDocument, start: nat, ask: nat -> nat, p: nat, maxBytes: nat)
    requires forall q :: ask(q) >= 1
    requires start < |document.Text()|
    ensures forall page :: page in PagesFrom(document, start, ask, p, maxBytes) ==>
              page != "" && (|page| == 1 || EncodedLength(page) <= maxBytes)
    decreases |document.Text()| - start
  {
    var text := document.Text();
    var end := ChunkEnd(document, start, ask(p), maxBytes);
    ChunkStep(document, start, ask(p), maxBytes);
    var first := text[start..end];
    var rest := if end < |text| then PagesFrom(document, end, ask, p + 1, maxBytes) else [];
    if end < |text| {
      PagesAreBounded(document, end, ask, p + 1, maxBytes);
    }
    assert EncodedLength(first) == Bytes(text, start, end);
    assert forall page :: page in [first] + rest ==> page == first || page in rest;
  }

  /** Following `next_cursor` from the start, asking for any sizes, reads the whole text:
      nothing lost, nothing repeated, no page empty, and none above a ceiling of four
      bytes or more. */
  lemma RunReadsTheText(document: ExtractedDocument, ask: nat -> nat, maxBytes: nat, pages: seq<Chunk>)
    requires forall q :: ask(q) >= 1
    requires document.Text() != "" && maxBytes >= 4
    requires IsRun(document, DecodeCursor, None, ask, 0, maxBytes, pages)
    ensures Concat(Contents(pages)) == document.Text()
    ensures forall i :: 0 <= i < |pages| ==> pages[i].content != "" && EncodedLength(pages[i].content) <= maxBytes
  {
    DecodeInverts();
    RunReadsPages(document, DecodeCursor, None, 0, ask, 0, maxBytes, pages);
    PagesAreTheText(document, 0, ask, 0, maxBytes);
    PagesAreBounded(document, 0, ask, 0, maxBytes);
    forall i | 0 <= i < |pages|
      ensures pages[i].content != "" && EncodedLength(pages[i].content) <= maxBytes
    {
      var page := pages[i].content;
      assert Contents(pages)[i] == page && page in Contents(pages);
      if |page| == 1 {
        assert page[..0] == "";
      }
    }
  }

  // ---- How many pages that takes.

  /** The number of boundaries past `start`. */
  function Ahead(boundaries: seq<nat>, start: nat): (r: nat)
    ensures r <= |boundaries|
  {
    if boundaries == [] then 0 else
      Ahead(boundaries[..|boundaries| - 1], start) + if boundaries[|boundaries| - 1] > start then 1 else 0
  }

  lemma {:induction false} AheadShrinks(boundaries: seq<nat>, start: nat, end: nat)
    requires start <= end
    ensures Ahead(boundaries, end) <= Ahead(boundaries, start)
    ensures start < end && end in boundaries ==> Ahead(boundaries, end) < Ahead(boundaries, start)
  {
    if boundaries != [] {
      AheadShrinks(boundaries[..|boundaries| - 1], start, end);
    }
  }

  /** `n // m`, counted in whole pages. */
  function WholePages(n: nat, m: nat): nat
    requires m >= 1
  {
    if n < m then 0 else 1 + WholePages(n - m, m)
  }

  lemma {:induction false} WholePagesGrow(a: nat, b: nat, m: nat)
    requires m >= 1 && a <= b
    ensures WholePages(a, m) <= WholePages(b, m)
  {
    if a >= m {
      WholePagesGrow(a - m, b - m, m);
    }
  }

  lemma {:induction false} WholePagesIsQuotient(n: nat, m: nat)
    requires m >= 1
    ensures WholePages(n, m) == n / m
  {
    if n >= m {
      WholePagesIsQuotient(n - m, m);
      QuotientStep(n - m, m);
    }
  }

  lemma QuotientStep(n: nat, m: nat)
    requires m >= 1
    ensures (n + m) / m == n / m + 1
  {
    var q, r := n / m, n % m;
    assert n == q * m + r;
    assert n + m == (q + 1) * m + r;
    QuotientIsUnique(m, q + 1, r, (n + m) / m, (n + m) % m);
  }

  lemma QuotientIsUnique(m: nat, q: nat, r: nat, q': nat, r': nat)
    requires r < m && r' < m && q * m + r == q' * m + r'
    ensures q == q'
  {
    var d := q - q';
    assert d * m == r' - r by {
      assert d * m == q * m - q' * m;
    }
    assert -1 * m < d * m < 1 * m;
    assert d < 1 && d > -1;
  }

  /** A page that does not end the text uses up a boundary or `m` characters. */
  lemma PageUsesSomething(document: ExtractedDocument, start: nat, m: nat, maxBytes: nat)
    requires m >= 1 && 4 * m <= maxBytes
    requires start < |document.Text()|
    requires ChunkEnd(document, start, m, maxBytes) < |document.Text()|
    ensures var end, boundaries, n := ChunkEnd(document, start, m, maxBytes), Boundaries(document.blocks), |document.Text()|;
            start <= end &&
            Ahead(boundaries, end) + WholePages(n - end, m) + 1 <= Ahead(boundaries, start) + WholePages(n - start, m)
  {
    var text, end := document.Text(), ChunkEnd(document, start, m, maxBytes);
    var limit := Min(start + m, |text|);
    BytesGrow(text, start, start, limit);
    assert Bytes(text, start, start) == 0;
    assert LongestFit(text, start, limit, maxBytes) == limit;
    CutBounds(document, start, limit);
    AheadShrinks(Boundaries(document.blocks), start, end);
    if end in Boundaries(document.blocks) {
      WholePagesGrow(|text| - end, |text| - start, m);
    } else {
      assert end == start + m;
    }
  }

  lemma {:induction false} PageCount(document: ExtractedDocument, start: nat, ask: nat -> nat, m: nat, p: nat, maxBytes: nat)
    requires m >= 1 && 4 * m <= maxBytes && forall q :: ask(q) == m
    requires start < |document.Text()|
    ensures |PagesFrom(document, start, ask, p, maxBytes)| <=
            Ahead(Boundaries(document.blocks), start) + 1 + WholePages(|document.Text()| - start, m)
    decreases |document.Text()| - start
  {
    var end := ChunkEnd(document, start, m, maxBytes);
    ChunkStep(document, start, m, maxBytes);
    if end < |document.Text()| {
      PageCount(document, end, ask, m, p + 1, maxBytes);
      PageUsesSomething(document, start, m, maxBytes);
    }
  }

  lemma RunCount(
    document: ExtractedDocument, offset: Option<string> -> Result<nat>, ask: nat -> nat, m: nat, maxBytes: nat, pages: seq<Chunk>)
    requires m >= 1 && 4 * m <= maxBytes && document.Text() != "" && forall q :: ask(q) == m
    requires Inverts(offset) && offset(None) == Ok(0)
    requires IsRun(document, offset, None, ask, 0, maxBytes, pages)
    ensures |pages| <= |document.blocks| + WholePages(|document.Text()|, m)
  {
    RunReadsPages(document, offset, None, 0, ask, 0, maxBytes, pages);
    PageCount(document, 0, ask, m, 0, maxBytes);
    assert |pages| == |Contents(pages)|;
  }

  /** A document read in pages of `m` characters that the ceiling cannot cut takes at most
      as many pages as it has blocks, plus one for every `m` characters of text. */
  lemma RunIsShort(document: ExtractedDocument, ask: nat -> nat, m: nat, maxBytes: nat, pages: seq<Chunk>)
    requires m >= 1 && 4 * m <= maxBytes && document.Text() != "" && forall q :: ask(q) == m
    requires IsRun(document, DecodeCursor, None, ask, 0, maxBytes, pages)
    ensures |pages| <= |document.blocks| + |document.Text()| / m
  {
    DecodeInverts();
    RunCount(document, DecodeCursor, ask, m, maxBytes, pages);
    WholePagesIsQuotient(|document.Text()|, m);
  }
}
