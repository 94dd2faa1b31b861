/** Merging per-batch relevance lists by rank position. */
module Merge {
  import opened DriveItems
  import FirstSeen

  datatype Hit = Hit(item: DriveItem, relativePath: string)

  type Batch = seq<Hit>

  /** A place in the batches: rank first, batch second, ordered lexicographically. */
  datatype Cell = Cell(rank: nat, batch: nat)

  predicate Before(a: Cell, b: Cell) {
    a.rank < b.rank || (a.rank == b.rank && a.batch < b.batch)
  }

  predicate Occupied(batches: seq<Batch>, c: Cell) {
    c.batch < |batches| && c.rank < |batches[c.batch]|
  }

  function HitAt(batches: seq<Batch>, c: Cell): Hit
    requires Occupied(batches, c)
  {
    batches[c.batch][c.rank]
  }

  function Depth(batches: seq<Batch>): nat {
    if batches == [] then 0 else
      var rest := Depth(batches[1..]);
      if |batches[0]| > rest then |batches[0]| else rest
  }

  lemma {:induction false} DepthIsMax(batches: seq<Batch>)
    ensures forall b :: 0 <= b < |batches| ==> |batches[b]| <= Depth(batches)
    ensures batches != [] ==> exists b :: 0 <= b < |batches| && |batches[b]| == Depth(batches)
  {
    if batches != [] {
      DepthIsMax(batches[1..]);
      forall b | 0 <= b < |batches|
        ensures |batches[b]| <= Depth(batches)
      {
        assert b > 0 ==> batches[b] == batches[1..][b - 1];
      }
      if |batches[0]| != Depth(batches) {
        var b :| 0 <= b < |batches[1..]| && |batches[1..][b]| == Depth(batches);
        assert batches[b + 1] == batches[1..][b];
      }
    }
  }

  /** The occupied cells before `(rank, batch)`, in order. */
  function CellsBefore(batches: seq<Batch>, rank: nat, batch: nat): (r: seq<Cell>)
    requires batch <= |batches|
    ensures forall c :: c in r ==> Occupied(batches, c)
    decreases rank, batch
  {
    if batch > 0 then
      var front := CellsBefore(batches, rank, batch - 1);
      if rank < |batches[batch - 1]| then front + [Cell(rank, batch - 1)] else front
    else if rank > 0 then CellsBefore(batches, rank - 1, |batches|)
    else []
  }

  function Cells(batches: seq<Batch>): seq<Cell> {
    CellsBefore(batches, Depth(batches), 0)
  }

  function HitsAt(batches: seq<Batch>, cells: seq<Cell>): (r: seq<Hit>)
    requires forall c :: c in cells ==> Occupied(batches, c)
    ensures |r| == |cells|
    ensures forall i :: 0 <= i < |cells| ==> r[i] == HitAt(batches, cells[i])
  {
    seq(|cells|, i requires 0 <= i < |cells| => HitAt(batches, cells[i]))
  }

  function HitIds(hits: seq<Hit>): (r: seq<string>)
    ensures |r| == |hits|
    ensures forall i :: 0 <= i < |hits| ==> r[i] == hits[i].item.id
  {
    seq(|hits|, i requires 0 <= i < |hits| => hits[i].item.id)
  }

  function MergedBefore(batches: seq<Batch>, rank: nat, batch: nat): seq<Hit>
    requires batch <= |batches|
  {
    var hits := HitsAt(batches, CellsBefore(batches, rank, batch));
    FirstSeen.Keep(hits, HitIds(hits))
  }

  /** The rank merge: all hits in rank order, the first sighting of an ID wins. */
  function Merged(batches: seq<Batch>): seq<Hit> {
    MergedBefore(batches, Depth(batches), 0)
  }

  method InterleaveByRank(batches: seq<Batch>) returns (merged: seq<Hit>)
    ensures merged == Merged(batches)
  {
    merged := [];
    var seen: set<string> := {};
    for position := 0 to Depth(batches)
      invariant merged == MergedBefore(batches, position, 0)
      invariant SameIds(seen, merged)
    {
      for b := 0 to |batches|
        invariant merged == MergedBefore(batches, position, b)
        invariant SameIds(seen, merged)
      {
        MergedStep(batches, position, b);
        if position >= |batches[b]| {
          continue;
        }
        var hit := batches[b][position];
        if hit.item.id in seen {
          continue;
        }
        SameIdsSnoc(seen, merged, hit);
        seen := seen + {hit.item.id};
        merged := merged + [hit];
      }
    }
  }

  ghost predicate SameIds(seen: set<string>, merged: seq<Hit>) {
    forall id :: id in seen <==> id in HitIds(merged)
  }

  lemma SameIdsSnoc(seen: set<string>, merged: seq<Hit>, hit: Hit)
    requires SameIds(seen, merged)
    ensures SameIds(seen + {hit.item.id}, merged + [hit])
  {
    assert HitIds(merged + [hit]) == HitIds(merged) + [hit.item.id];
  }

  lemma MergedStep(batches: seq<Batch>, rank: nat, batch: nat)
    requires batch < |batches|
    ensures var before, after := MergedBefore(batches, rank, batch), MergedBefore(batches, rank, batch + 1);
            if rank >= |batches[batch]| then after == before
            else
              var hit := batches[batch][rank];
              after == if hit.item.id in HitIds(before) then before else before + [hit]
  {
    var cells := CellsBefore(batches, rank, batch);
    var hits := HitsAt(batches, cells);
    if rank < |batches[batch]| {
      var hit := batches[batch][rank];
      assert HitsAt(batches, cells + [Cell(rank, batch)]) == hits + [hit];
      assert HitIds(hits + [hit]) == HitIds(hits) + [hit.item.id];
      FirstSeen.KeepSnoc(hits, HitIds(hits), hit, hit.item.id);
      KeptHits(hits);
    }
  }

  /** Among merged hits no ID is lost and none repeats. */
  lemma KeptHits(hits: seq<Hit>)
    ensures var r := FirstSeen.Keep(hits, HitIds(hits));
            && (forall id :: id in HitIds(r) <==> id in HitIds(hits))
            && (forall k, l :: 0 <= k < l < |r| ==> r[k].item.id != r[l].item.id)
  {
    var ids, r := HitIds(hits), FirstSeen.Keep(hits, HitIds(hits));
    FirstSeen.KeptKeys(ids);
    FirstSeen.KeepMaps(hits, ids, ids, (h: Hit) => h.item.id);
    assert HitIds(r) == FirstSeen.Keep(ids, ids);
  }

  // ---- What the merge order is, without its loops.

  predicate NotAfter(rank: nat, batch: nat, rank': nat, batch': nat) {
    rank < rank' || (rank == rank' && batch <= batch')
  }

  /** The cells before a place are exactly the occupied ones that precede it, in order. */
  lemma {:induction false} CellsAreInOrder(batches: seq<Batch>, rank: nat, batch: nat)
    requires batch <= |batches|
    ensures var cells := CellsBefore(batches, rank, batch);
            && (forall c :: c in cells <==> Occupied(batches, c) && Before(c, Cell(rank, batch)))
            && (forall i, j :: 0 <= i < j < |cells| ==> Before(cells[i], cells[j]))
            && |cells| <= rank * |batches| + batch
    decreases rank, batch
  {
    if batch > 0 {
      CellsAreInOrder(batches, rank, batch - 1);
    } else if rank > 0 {
      CellsAreInOrder(batches, rank - 1, |batches|);
      assert (rank - 1) * |batches| + |batches| == rank * |batches|;
    }
  }

  lemma {:induction false} CellsPrefix(batches: seq<Batch>, rank: nat, batch: nat, rank': nat, batch': nat)
    requires batch <= |batches| && batch' <= |batches|
    requires NotAfter(rank, batch, rank', batch')
    ensures CellsBefore(batches, rank, batch) <= CellsBefore(batches, rank', batch')
    decreases rank', batch'
  {
    if rank == rank' && batch == batch' {
    } else if batch' > 0 {
      CellsPrefix(batches, rank, batch, rank', batch' - 1);
    } else {
      CellsPrefix(batches, rank, batch, rank' - 1, |batches|);
    }
  }

  lemma MergedPrefix(batches: seq<Batch>, rank: nat, batch: nat, rank': nat, batch': nat)
    requires batch <= |batches| && batch' <= |batches|
    requires NotAfter(rank, batch, rank', batch')
    ensures MergedBefore(batches, rank, batch) <= MergedBefore(batches, rank', batch')
  {
    CellsPrefix(batches, rank, batch, rank', batch');
    var part := HitsAt(batches, CellsBefore(batches, rank, batch));
    var whole := HitsAt(batches, CellsBefore(batches, rank', batch'));
    FirstSeen.KeepPrefix(whole, HitIds(whole), |part|);
    assert whole[..|part|] == part && HitIds(whole)[..|part|] == HitIds(part);
  }

  /** The cells whose hits survive the merge. */
  function SurvivingCells(batches: seq<Batch>): seq<Cell> {
    FirstSeen.Keep(Cells(batches), HitIds(HitsAt(batches, Cells(batches))))
  }

  /** Cell `c` is the lexicographically first place its ID is ranked. */
  ghost predicate FirstSighting(batches: seq<Batch>, c: Cell) {
    && Occupied(batches, c)
    && forall d :: Occupied(batches, d) && HitAt(batches, d).item.id == HitAt(batches, c).item.id
                   ==> d == c || Before(c, d)
  }

  /** The merge is the first sightings of all IDs, in lexicographic (rank, batch) order:
      nothing is lost, nothing repeats, and this determines it. */
  lemma MergeOrder(batches: seq<Batch>)
    ensures var cells, merged := SurvivingCells(batches), Merged(batches);
            && |merged| == |cells|
            && (forall c :: c in cells <==> FirstSighting(batches, c))
            && (forall k, l :: 0 <= k < l < |cells| ==> Before(cells[k], cells[l]))
            && (forall k :: 0 <= k < |cells| ==> Occupied(batches, cells[k]) && merged[k] == HitAt(batches, cells[k]))
  {
    DepthIsMax(batches);
    CellsAreInOrder(batches, Depth(batches), 0);
    var all := Cells(batches);
    var hits := HitsAt(batches, all);
    var ids := HitIds(hits);
    var at := FirstSeen.Firsts(ids);
    FirstSeen.KeepIsFirsts(all, ids);
    FirstSeen.KeepIsFirsts(hits, ids);
    FirstSeen.FirstsIncrease(ids);
    FirstSeen.FirstsMeaning(ids);
    var cells := SurvivingCells(batches);
    forall c
      ensures c in cells <==> FirstSighting(batches, c)
    {
      if c in cells {
        SurvivorIsFirst(batches, c);
      }
      if FirstSighting(batches, c) {
        FirstSurvives(batches, c);
      }
    }
  }

  lemma SurvivorIsFirst(batches: seq<Batch>, c: Cell)
    requires c in SurvivingCells(batches)
    ensures FirstSighting(batches, c)
  {
    var ids := HitIds(HitsAt(batches, Cells(batches)));
    var i := SurvivorIndex(batches, c);
    forall d | Occupied(batches, d) && HitAt(batches, d).item.id == HitAt(batches, c).item.id
      ensures d == c || Before(c, d)
    {
      var j := CellIndex(batches, d);
      NotEarlier(ids, i, j);
      CellsAreInOrder(batches, Depth(batches), 0);
    }
  }

  lemma SurvivorIndex(batches: seq<Batch>, c: Cell) returns (i: nat)
    requires c in SurvivingCells(batches)
    ensures i < |Cells(batches)| && Cells(batches)[i] == c && Occupied(batches, c)
    ensures FirstSeen.IsFirst(HitIds(HitsAt(batches, Cells(batches))), i)
  {
    var all := Cells(batches);
    var ids := HitIds(HitsAt(batches, all));
    FirstSeen.KeepIsFirsts(all, ids);
    FirstSeen.FirstsMeaning(ids);
    var k :| 0 <= k < |SurvivingCells(batches)| && SurvivingCells(batches)[k] == c;
    i := FirstSeen.Firsts(ids)[k];
    assert i in FirstSeen.Firsts(ids) && c in all;
  }

  lemma CellIndex(batches: seq<Batch>, d: Cell) returns (j: nat)
    requires Occupied(batches, d)
    ensures j < |Cells(batches)| && Cells(batches)[j] == d
  {
    DepthIsMax(batches);
    CellsAreInOrder(batches, Depth(batches), 0);
    assert d in Cells(batches);
    j :| 0 <= j < |Cells(batches)| && Cells(batches)[j] == d;
  }

  lemma NotEarlier(keys: seq<string>, i: nat, j: nat)
    requires FirstSeen.IsFirst(keys, i) && j < |keys| && keys[j] == keys[i]
    ensures i <= j
  {
    assert forall m :: 0 <= m < i ==> keys[..i][m] == keys[m];
  }

  lemma FirstSurvives(batches: seq<Batch>, c: Cell)
    requires FirstSighting(batches, c)
    ensures c in SurvivingCells(batches)
  {
    DepthIsMax(batches);
    CellsAreInOrder(batches, Depth(batches), 0);
    var all := Cells(batches);
    var ids := HitIds(HitsAt(batches, all));
    var i := CellIndex(batches, c);
    var k := FirstSeen.FirstOf(ids, i);
    var f := FirstSeen.Firsts(ids)[k];
    assert all[f] in all && ids[f] == ids[i];
    assert HitAt(batches, all[f]).item.id == HitAt(batches, c).item.id;
    assert all[f] == c;
    FirstSeen.KeepIsFirsts(all, ids);
  }

  /** The merge invents nothing. */
  lemma MergedAreHits(batches: seq<Batch>, k: nat) returns (b: nat)
    requires k < |Merged(batches)|
    ensures b < |batches| && Merged(batches)[k] in batches[b]
  {
    MergeOrder(batches);
    var c := SurvivingCells(batches)[k];
    b := c.batch;
    assert Merged(batches)[k] == batches[b][c.rank];
  }

  /** No ranked ID is lost, and none is merged twice. */
  lemma EveryIdSurvives(batches: seq<Batch>, c: Cell) returns (k: nat)
    requires Occupied(batches, c)
    ensures k < |Merged(batches)| && Merged(batches)[k].item.id == HitAt(batches, c).item.id
  {
    var hits := HitsAt(batches, Cells(batches));
    var j := CellIndex(batches, c);
    KeptHits(hits);
    assert HitIds(hits)[j] in HitIds(hits);
    assert HitIds(hits)[j] in HitIds(Merged(batches));
    k :| 0 <= k < |Merged(batches)| && HitIds(Merged(batches))[k] == HitIds(hits)[j];
  }

  lemma MergedIsDistinct(batches: seq<Batch>)
    ensures forall k, l :: 0 <= k < l < |Merged(batches)| ==>
              Merged(batches)[k].item.id != Merged(batches)[l].item.id
  {
    var hits := HitsAt(batches, Cells(batches));
    KeptHits(hits);
    assert Merged(batches) == FirstSeen.Keep(hits, HitIds(hits));
  }

  /** Where an item lands: ranked `r` in batch `b` of `k`, it lands at `r * k + b` or
      earlier, and, when no batch repeats an ID, at `r` or later. */
  lemma LandingBounds(batches: seq<Batch>, i: nat)
    requires i < |SurvivingCells(batches)|
    ensures var c := SurvivingCells(batches)[i];
            && i <= c.rank * |batches| + c.batch
            && (DistinctInBatches(batches) ==> c.rank <= i)
  {
    MergeOrder(batches);
    var cells := SurvivingCells(batches);
    var c := cells[i];
    assert c in cells;
    var before := MergedBefore(batches, c.rank, c.batch);
    LandsAfterThoseBefore(batches, i);
    CellsAreInOrder(batches, c.rank, c.batch);
    var hits := HitsAt(batches, CellsBefore(batches, c.rank, c.batch));
    FirstSeen.KeepIsFirsts(hits, HitIds(hits));
    FirstsAtMost(HitIds(hits));
    if DistinctInBatches(batches) {
      FullRows(batches, c.batch, c.rank);
      MergedPrefix(batches, c.rank, 0, c.rank, c.batch);
    }
  }

  ghost predicate DistinctInBatches(batches: seq<Batch>) {
    forall b, i, j :: 0 <= b < |batches| && 0 <= i < j < |batches[b]|
      ==> batches[b][i].item.id != batches[b][j].item.id
  }

  lemma {:induction false} FirstsAtMost(keys: seq<string>)
    ensures |FirstSeen.Firsts(keys)| <= |keys|
  {
    if keys != [] {
      FirstsAtMost(keys[..|keys| - 1]);
    }
  }

  /** Ahead of a survivor is exactly what the merge held when its cell came up. */
  lemma LandsAfterThoseBefore(batches: seq<Batch>, i: nat)
    requires i < |SurvivingCells(batches)|
    requires Occupied(batches, SurvivingCells(batches)[i])
    ensures var c := SurvivingCells(batches)[i]; |MergedBefore(batches, c.rank, c.batch)| == i
  {
    var c := SurvivingCells(batches)[i];
    var all := Cells(batches);
    var ids := HitIds(HitsAt(batches, all));
    var at := FirstSeen.Firsts(ids);
    FirstSeen.KeepIsFirsts(all, ids);
    var n := at[i];
    FirstSeen.FirstsIncrease(ids);
    FirstsBelow(ids, i);
    DepthIsMax(batches);
    CellsAreInOrder(batches, Depth(batches), 0);
    CellsPrefix(batches, c.rank, c.batch, Depth(batches), 0);
    CellsAreInOrder(batches, c.rank, c.batch);
    var part := CellsBefore(batches, c.rank, c.batch);
    CellPosition(batches, c, n);
    var hits := HitsAt(batches, part);
    assert HitIds(hits) == ids[..n];
    FirstSeen.KeepIsFirsts(hits, HitIds(hits));
  }

  lemma {:induction false} FirstsBelow(keys: seq<string>, i: nat)
    requires i < |FirstSeen.Firsts(keys)|
    ensures |FirstSeen.Firsts(keys[..FirstSeen.Firsts(keys)[i]])| == i
  {
    var n := |keys| - 1;
    var front := FirstSeen.Firsts(keys[..n]);
    if i < |front| {
      FirstsBelow(keys[..n], i);
      assert keys[..n][..front[i]] == keys[..front[i]];
    }
  }

  /** A cell stands in the order right after the cells before it. */
  lemma CellPosition(batches: seq<Batch>, c: Cell, n: nat)
    requires n < |Cells(batches)| && Cells(batches)[n] == c && c.batch < |batches|
    ensures |CellsBefore(batches, c.rank, c.batch)| == n
  {
    DepthIsMax(batches);
    CellsAreInOrder(batches, Depth(batches), 0);
    CellsAreInOrder(batches, c.rank, c.batch);
    var all, part := Cells(batches), CellsBefore(batches, c.rank, c.batch);
    assert c in all;
    CellsPrefix(batches, c.rank, c.batch, Depth(batches), 0);
    assert forall m :: 0 <= m < |part| ==> part[m] in part && Before(part[m], c);
    if |part| < |all| {
      var d := all[|part|];
      assert forall j :: 0 <= j < |part| ==> part[j] == all[j] && Before(all[j], d);
      assert d in all && d !in part;
    }
  }

  // ---- Asking each batch for its first n is enough.

  function UpTo<T>(xs: seq<T>, n: nat): seq<T> {
    if |xs| < n then xs else xs[..n]
  }

  /** `given` holds, of every complete ranking, a prefix of n hits or more, or all of it. */
  ghost predicate Enough(given: seq<Batch>, complete: seq<Batch>, n: nat) {
    && |given| == |complete|
    && forall b :: 0 <= b < |given| ==>
         && given[b] <= complete[b]
         && (|given[b]| >= n || given[b] == complete[b])
  }

  /** Cutting every ranking to n or more hits leaves the first n merged items, and the
      question whether there are n of them, unchanged. */
  lemma TruncationKeepsTheTop(given: seq<Batch>, complete: seq<Batch>, n: nat)
    requires Enough(given, complete, n) && DistinctInBatches(complete)
    ensures UpTo(Merged(given), n) == UpTo(Merged(complete), n)
    ensures |Merged(given)| >= n <==> |Merged(complete)| >= n
  {
    if exists b :: 0 <= b < |complete| && |complete[b]| >= n {
      var b :| 0 <= b < |complete| && |complete[b]| >= n;
      SameTopRows(given, complete, n);
      FullRows(given, b, n);
      FullRows(complete, b, n);
      var m := MergedBefore(given, n, 0);
      assert Merged(given)[..n] == m[..n] == Merged(complete)[..n];
    } else {
      assert given == complete;
    }
  }

  lemma {:induction false} SameTopCells(given: seq<Batch>, complete: seq<Batch>, n: nat, rank: nat, batch: nat)
    requires Enough(given, complete, n)
    requires batch <= |given| && NotAfter(rank, batch, n, 0)
    ensures CellsBefore(given, rank, batch) == CellsBefore(complete, rank, batch)
    decreases rank, batch
  {
    if batch > 0 {
      SameTopCells(given, complete, n, rank, batch - 1);
    } else if rank > 0 {
      SameTopCells(given, complete, n, rank - 1, |given|);
    }
  }

  lemma SameTopRows(given: seq<Batch>, complete: seq<Batch>, n: nat)
    requires Enough(given, complete, n)
    ensures MergedBefore(given, n, 0) == MergedBefore(complete, n, 0)
  {
    SameTopCells(given, complete, n, n, 0);
    var cells := CellsBefore(given, n, 0);
    forall i | 0 <= i < |cells|
      ensures HitAt(given, cells[i]) == HitAt(complete, cells[i])
    {
      assert cells[i] in cells;
      assert given[cells[i].batch] <= complete[cells[i].batch];
    }
    assert HitsAt(given, cells) == HitsAt(complete, cells);
  }

  /** A batch with n hits puts n items among the first n rows. */
  lemma FullRows(batches: seq<Batch>, b: nat, n: nat)
    requires b < |batches| && |batches[b]| >= n
    requires forall i, j :: 0 <= i < j < |batches[b]| ==> batches[b][i].item.id != batches[b][j].item.id
    ensures n <= |MergedBefore(batches, n, 0)| && MergedBefore(batches, n, 0) <= Merged(batches)
  {
    DepthIsMax(batches);
    MergedPrefix(batches, n, 0, Depth(batches), 0);
    var mine := HitIds(batches[b][..n]);
    forall r | 0 <= r < n
      ensures mine[r] in HitIds(MergedBefore(batches, n, 0))
    {
      IdInRows(batches, b, r, n);
    }
    FirstSeen.FitsIn(mine, HitIds(MergedBefore(batches, n, 0)));
  }

  lemma IdInRows(batches: seq<Batch>, b: nat, r: nat, n: nat)
    requires b < |batches| && r < |batches[b]| && r < n
    ensures batches[b][r].item.id in HitIds(MergedBefore(batches, n, 0))
  {
    CellsAreInOrder(batches, n, 0);
    var cells := CellsBefore(batches, n, 0);
    var hits := HitsAt(batches, cells);
    KeptHits(hits);
    assert Cell(r, b) in cells;
    var j :| 0 <= j < |cells| && cells[j] == Cell(r, b);
    assert HitIds(hits)[j] in HitIds(hits);
  }

  /** One batch without repetition is handed back untouched. */
  lemma OneBatchIsUntouched(batch: Batch)
    requires DistinctInBatches([batch])
    ensures Merged([batch]) == batch
  {
    var batches := [batch];
    DepthIsMax(batches);
    OneBatchCells(batch, |batch|);
    var hits := HitsAt(batches, CellsBefore(batches, |batch|, 0));
    assert hits == batch;
    assert batches[0] == batch;
    FirstSeen.KeepDistinct(hits, HitIds(hits));
  }

  lemma {:induction false} OneBatchCells(batch: Batch, rank: nat)
    requires rank <= |batch|
    ensures CellsBefore([batch], rank, 0) == seq(rank, r requires 0 <= r < rank => Cell(r, 0))
  {
    if rank > 0 {
      OneBatchCells(batch, rank - 1);
      assert CellsBefore([batch], rank, 0) == CellsBefore([batch], rank - 1, 1)
          == CellsBefore([batch], rank - 1, 0) + [Cell(rank - 1, 0)];
    }
  }

  /** The first `limit` merged items, and whether there are more, can be told from rankings
      cut to `limit + 1` hits or more. */
  lemma OneMoreThanTheLimit(given: seq<Batch>, complete: seq<Batch>, cut: seq<bool>, limit: nat)
    requires Enough(given, complete, limit + 1) && DistinctInBatches(complete)
    requires |cut| == |given| && forall b :: 0 <= b < |given| && cut[b] ==> |given[b]| > limit
    ensures UpTo(Merged(given), limit) == UpTo(Merged(complete), limit)
    ensures |Merged(given)| > limit || (exists b :: 0 <= b < |cut| && cut[b]) <==> |Merged(complete)| > limit
  {
    TruncationKeepsTheTop(given, complete, limit + 1);
    UpToTwice(Merged(given), limit);
    UpToTwice(Merged(complete), limit);
    if exists b :: 0 <= b < |cut| && cut[b] {
      var b :| 0 <= b < |cut| && cut[b];
      BatchIsDistinct(given, complete, limit + 1, b);
      FullRows(given, b, limit + 1);
    }
  }

  lemma BatchIsDistinct(given: seq<Batch>, complete: seq<Batch>, n: nat, b: nat)
    requires Enough(given, complete, n) && DistinctInBatches(complete) && b < |given|
    ensures forall i, j :: 0 <= i < j < |given[b]| ==> given[b][i].item.id != given[b][j].item.id
  {
    assert given[b] <= complete[b];
  }

  lemma UpToTwice<T>(xs: seq<T>, n: nat)
    ensures UpTo(UpTo(xs, n + 1), n) == UpTo(xs, n)
  {
  }

  // ---- Exactly when a part of every ranking is enough.

  /** `given` holds a prefix of every complete ranking. */
  ghost predicate Prefixes(given: seq<Batch>, complete: seq<Batch>) {
    |given| == |complete| && forall b :: 0 <= b < |given| ==> given[b] <= complete[b]
  }

  /** No ID is ranked twice, in one batch or in two. */
  ghost predicate AllDistinct(batches: seq<Batch>) {
    forall c, d :: Occupied(batches, c) && Occupied(batches, d) && c != d
      ==> HitAt(batches, c).item.id != HitAt(batches, d).item.id
  }

  /** The first `n` positions of the complete merge were all fetched. */
  ghost predicate TopFetched(given: seq<Batch>, complete: seq<Batch>, n: nat) {
    forall k :: 0 <= k < n && k < |Cells(complete)| ==> Occupied(given, Cells(complete)[k])
  }

  lemma AllCells(batches: seq<Batch>)
    ensures forall c :: c in Cells(batches) <==> Occupied(batches, c)
    ensures forall i, j :: 0 <= i < j < |Cells(batches)| ==> Before(Cells(batches)[i], Cells(batches)[j])
  {
    DepthIsMax(batches);
    CellsAreInOrder(batches, Depth(batches), 0);
  }

  /** When no ID is ranked twice the merge drops nothing. */
  lemma MergedIsAllHits(batches: seq<Batch>)
    requires AllDistinct(batches)
    ensures Merged(batches) == HitsAt(batches, Cells(batches))
  {
    AllCells(batches);
    var cells := Cells(batches);
    var hits := HitsAt(batches, cells);
    forall i, j | 0 <= i < j < |hits|
      ensures HitIds(hits)[i] != HitIds(hits)[j]
    {
      assert cells[i] in cells && cells[j] in cells && Before(cells[i], cells[j]);
    }
    FirstSeen.KeepDistinct(hits, HitIds(hits));
  }

  lemma FetchedIsRanked(given: seq<Batch>, complete: seq<Batch>, c: Cell)
    requires Prefixes(given, complete) && Occupied(given, c)
    ensures Occupied(complete, c) && HitAt(given, c) == HitAt(complete, c)
  {
    assert given[c.batch] <= complete[c.batch];
  }

  lemma FetchedAreDistinct(given: seq<Batch>, complete: seq<Batch>)
    requires Prefixes(given, complete) && AllDistinct(complete)
    ensures AllDistinct(given)
  {
    forall c, d | Occupied(given, c) && Occupied(given, d) && c != d
      ensures HitAt(given, c).item.id != HitAt(given, d).item.id
    {
      FetchedIsRanked(given, complete, c);
      FetchedIsRanked(given, complete, d);
    }
  }

  /** Where the first `m` positions were all fetched, both merges start with them. */
  lemma {:induction false} SameStart(given: seq<Batch>, complete: seq<Batch>, m: nat)
    requires Prefixes(given, complete) && m <= |Cells(complete)| && TopFetched(given, complete, m)
    ensures m <= |Cells(given)| && Cells(given)[..m] == Cells(complete)[..m]
  {
    if m > 0 {
      var k := m - 1;
      SameStart(given, complete, k);
      var A, B := Cells(complete), Cells(given);
      AllCells(complete);
      AllCells(given);
      assert Occupied(given, A[k]) && A[k] in B;
      forall h | 0 <= h < k
        ensures B[h] != A[k]
      {
        assert B[h] == B[..k][h] == A[..k][h] == A[h];
        assert Before(A[h], A[k]);
      }
      var i :| 0 <= i < |B| && B[i] == A[k];
      NothingBetween(given, complete, k, i);
      assert B[..m] == B[..k] + [B[k]] && A[..m] == A[..k] + [A[k]];
    }
  }

  lemma NothingBetween(given: seq<Batch>, complete: seq<Batch>, k: nat, i: nat)
    requires Prefixes(given, complete) && k < |Cells(complete)| && k <= i < |Cells(given)|
    requires Cells(given)[..k] == Cells(complete)[..k] && Cells(given)[i] == Cells(complete)[k]
    ensures Cells(given)[k] == Cells(complete)[k]
  {
    var A, B := Cells(complete), Cells(given);
    AllCells(complete);
    AllCells(given);
    assert B[k] in B;
    FetchedIsRanked(given, complete, B[k]);
    assert B[k] in A;
    forall h | 0 <= h < k
      ensures A[h] != B[k]
    {
      assert A[h] == A[..k][h] == B[..k][h] == B[h];
      assert Before(B[h], B[k]);
    }
    var j :| 0 <= j < |A| && A[j] == B[k];
    assert k < i ==> Before(B[k], B[i]);
    assert k < j ==> Before(A[k], A[j]);
  }

  /** Parts of the rankings give the top of the complete merge if and only if they hold all
      of its first `n` positions. */
  lemma TopIsExactly(given: seq<Batch>, complete: seq<Batch>, n: nat)
    requires Prefixes(given, complete) && AllDistinct(complete)
    ensures UpTo(Merged(given), n) == UpTo(Merged(complete), n) <==> TopFetched(given, complete, n)
  {
    FetchedAreDistinct(given, complete);
    MergedIsAllHits(given);
    MergedIsAllHits(complete);
    if TopFetched(given, complete, n) {
      TopFetchedIsEnough(given, complete, n);
    } else {
      var k :| 0 <= k < n && k < |Cells(complete)| && !Occupied(given, Cells(complete)[k]);
      TopMissedShows(given, complete, n, k);
    }
  }

  lemma TopFetchedIsEnough(given: seq<Batch>, complete: seq<Batch>, n: nat)
    requires Prefixes(given, complete) && TopFetched(given, complete, n)
    ensures UpTo(HitsAt(given, Cells(given)), n) == UpTo(HitsAt(complete, Cells(complete)), n)
  {
    var A, B := Cells(complete), Cells(given);
    var m := if |A| < n then |A| else n;
    SameStart(given, complete, m);
    AllCells(given);
    forall k | 0 <= k < m
      ensures HitsAt(given, B)[k] == HitsAt(complete, A)[k]
    {
      assert B[k] == B[..m][k] == A[..m][k] == A[k];
      assert B[k] in B;
      FetchedIsRanked(given, complete, B[k]);
    }
    if |A| < n {
      NoMoreThanRanked(given, complete);
    }
  }

  lemma NoMoreThanRanked(given: seq<Batch>, complete: seq<Batch>)
    requires Prefixes(given, complete) && TopFetched(given, complete, |Cells(complete)|)
    ensures |Cells(given)| == |Cells(complete)|
  {
    var A, B := Cells(complete), Cells(given);
    SameStart(given, complete, |A|);
    AllCells(given);
    AllCells(complete);
    forall j | 0 <= j < |A|
      ensures |A| < |B| ==> A[j] != B[|A|]
    {
      assert B[j] == B[..|A|][j] == A[..|A|][j] == A[j];
      assert |A| < |B| ==> Before(B[j], B[|A|]);
    }
    if |B| > |A| {
      assert B[|A|] in B;
      FetchedIsRanked(given, complete, B[|A|]);
    }
  }

  lemma TopMissedShows(given: seq<Batch>, complete: seq<Batch>, n: nat, k: nat)
    requires Prefixes(given, complete) && AllDistinct(complete)
    requires k < n && k < |Cells(complete)| && !Occupied(given, Cells(complete)[k])
    ensures UpTo(HitsAt(given, Cells(given)), n) != UpTo(HitsAt(complete, Cells(complete)), n)
  {
    var A, B := Cells(complete), Cells(given);
    AllCells(given);
    AllCells(complete);
    if UpTo(HitsAt(given, B), n) == UpTo(HitsAt(complete, A), n) {
      assert UpTo(HitsAt(complete, A), n)[k] == HitAt(complete, A[k]);
      assert UpTo(HitsAt(given, B), n)[k] == HitAt(given, B[k]);
      assert B[k] in B && A[k] in A;
      FetchedIsRanked(given, complete, B[k]);
    }
  }

  /** Whatever part was fetched, it merges into no more items than the whole. */
  lemma NoMoreThanComplete(given: seq<Batch>, complete: seq<Batch>)
    requires Prefixes(given, complete)
    ensures |Merged(given)| <= |Merged(complete)|
  {
    MergedIsDistinct(given);
    forall id | id in HitIds(Merged(given))
      ensures id in HitIds(Merged(complete))
    {
      var k :| 0 <= k < |Merged(given)| && HitIds(Merged(given))[k] == id;
      MergeOrder(given);
      var c := SurvivingCells(given)[k];
      FetchedIsRanked(given, complete, c);
      var l := EveryIdSurvives(complete, c);
      assert HitIds(Merged(complete))[l] == id;
    }
    FirstSeen.FitsIn(HitIds(Merged(given)), HitIds(Merged(complete)));
  }
}
