/** When an allow rests on a root that was read before the request: the root is read by
    enumerations, so a map that is reused, or was being made, answers without a new read. */
module RootReads {
  import opened Outcomes
  import opened DriveItems
  import opened FolderWalk
  import opened Verdicts
  import opened AuthorizationRuns
  import MapProtocol

  // ---- The folder-map protocol inside a run.

  function Caches(run: seq<World>): (r: seq<MapProtocol.State<Observation>>)
    ensures |r| == |run| && forall i :: 0 <= i < |run| ==> r[i] == run[i].cache
  {
    seq(|run|, i requires 0 <= i < |run| => run[i].cache)
  }

  lemma CachesAreRun(scope: Scope, run: seq<World>)
    requires IsRun(scope, run)
    ensures MapProtocol.IsRun(scope.ttl, Caches(run))
  {
    var caches := Caches(run);
    forall i | 0 <= i < |caches| - 1
      ensures MapProtocol.Follows(scope.ttl, caches[i], caches[i + 1])
    {
      var e := LastEvent(scope, run, i + 1);
      EventIsStep(scope, run[i], e);
    }
  }

  lemma EventIsStep(scope: Scope, w: World, e: Event)
    requires Enabled(scope, w, e)
    ensures MapProtocol.Follows(scope.ttl, w.cache, Apply(scope, w, e).cache)
  {
    assert MapProtocol.Enabled(w.cache, ProtocolStep(w, e));
  }

  lemma LastEvent(scope: Scope, run: seq<World>, i: nat) returns (e: Event)
    requires IsRun(scope, run) && 0 < i < |run|
    ensures Enabled(scope, run[i - 1], e) && run[i] == Apply(scope, run[i - 1], e)
  {
    assert Follows(scope, run[i - 1], run[i - 1 + 1]);
    e :| Enabled(scope, run[i - 1], e) && run[i] == Apply(scope, run[i - 1], e);
  }

  lemma NowIsIndex(scope: Scope, run: seq<World>, i: nat)
    requires IsRun(scope, run) && i < |run|
    ensures Now(run[i]) == i
  {
    CachesAreRun(scope, run);
    MapProtocol.NowIsIndex(scope.ttl, Caches(run), i);
  }

  // ---- When an enumeration reads the root.

  /** The step at which the enumeration of this call read the root, if it has. */
  function ReadAt(w: World, call: CallId): Option<nat> {
    if call in w.readings && w.readings[call].root.Some? then Some(w.readings[call].root.value.at) else None
  }

  predicate IsEnumeratingSince(w: World, call: CallId, from: nat) {
    MapProtocol.IsEnumeratingSince(w.cache, call, from)
  }

  /** What one event does to a reading under way. */
  lemma ReadingMoves(scope: Scope, w: World, e: Event, call: CallId, from: nat)
    requires Enabled(scope, w, e) && IsEnumeratingSince(Apply(scope, w, e), call, from)
    ensures var w' := Apply(scope, w, e);
            if e == Protocol(MapProtocol.Start(call)) then
              from == Now(w) && ReadAt(w', call) == None
            else
              && IsEnumeratingSince(w, call, from)
              && if e == ReadRoot(call) then ReadAt(w, call) == None && ReadAt(w', call) == Some(Now(w))
                 else ReadAt(w', call) == ReadAt(w, call)
  {
    if e != Protocol(MapProtocol.Start(call)) {
      MapProtocol.EnumeratingBefore(scope.ttl, w.cache, ProtocolStep(w, e), call);
    }
  }

  function UpTo(at: Option<nat>, t: nat): Option<nat> {
    if at.Some? && at.value < t then at else None
  }

  /** One step back along a run. */
  lemma ReadingBefore(scope: Scope, run: seq<World>, i: nat, call: CallId, from: nat)
    requires IsRun(scope, run) && 0 < i < |run| && IsEnumeratingSince(run[i], call, from)
    ensures if from == i - 1 then ReadAt(run[i], call) == None
            else
              && from < i - 1 && IsEnumeratingSince(run[i - 1], call, from)
              && (ReadAt(run[i], call) == ReadAt(run[i - 1], call)
                  || (ReadAt(run[i - 1], call) == None && ReadAt(run[i], call) == Some(i - 1)))
  {
    var e := LastEvent(scope, run, i);
    NowIsIndex(scope, run, i - 1);
    ReadingMoves(scope, run[i - 1], e, call, from);
    if e != Protocol(MapProtocol.Start(call)) {
      StartedEarlier(scope, run, i - 1, call, from);
    }
  }

  /** The reading of an enumeration under way has its root from the step after it was read. */
  lemma {:induction false} RootSince(scope: Scope, run: seq<World>, i: nat, call: CallId, from: nat, t: nat)
    requires IsRun(scope, run) && i < |run| && IsEnumeratingSince(run[i], call, from)
    requires from < t <= i
    ensures IsEnumeratingSince(run[t], call, from)
    ensures ReadAt(run[t], call) == UpTo(ReadAt(run[i], call), t)
  {
    ReadingBefore(scope, run, i, call, from);
    if from < i - 1 {
      RootSince(scope, run, i - 1, call, from, if t < i then t else i - 1);
    }
  }

  lemma StartedEarlier(scope: Scope, run: seq<World>, i: nat, call: CallId, from: nat)
    requires IsRun(scope, run) && i < |run| && IsEnumeratingSince(run[i], call, from)
    ensures from < i
  {
    RunKeepsInv(scope, run, i);
    NowIsIndex(scope, run, i);
    var cache := run[i].cache;
    assert MapProtocol.CallInv(scope.ttl, cache, call, cache.calls[call]);
  }

  /** One event adds at most the enumeration that it finishes. */
  lemma HistoryMoves(scope: Scope, w: World, e: Event, g: nat)
    requires Enabled(scope, w, e) && g < |Apply(scope, w, e).cache.completed|
    ensures var added := Apply(scope, w, e).cache.completed[g];
            if g < |w.cache.completed| then added == w.cache.completed[g]
            else
              && added.finishedAt == Now(w)
              && IsEnumeratingSince(w, added.owner, added.startedAt)
              && ReadAt(w, added.owner) == Some(added.found.root.at)
  {
    MapProtocol.OnlyFinishCompletes(scope.ttl, w.cache, ProtocolStep(w, e));
    MapProtocol.StepGrows(scope.ttl, w.cache, ProtocolStep(w, e));
  }

  lemma HistoryBefore(scope: Scope, run: seq<World>, i: nat, g: nat)
    requires IsRun(scope, run) && i < |run| && g < |run[i].cache.completed|
    ensures i > 0
    ensures var added := run[i].cache.completed[g];
            if g < |run[i - 1].cache.completed| then added == run[i - 1].cache.completed[g]
            else
              && added.finishedAt == i - 1
              && IsEnumeratingSince(run[i - 1], added.owner, added.startedAt)
              && ReadAt(run[i - 1], added.owner) == Some(added.found.root.at)
  {
    if i > 0 {
      var e := LastEvent(scope, run, i);
      NowIsIndex(scope, run, i - 1);
      HistoryMoves(scope, run[i - 1], e, g);
    }
  }

  /** A completed enumeration was under way at every step up to its end, with its root in
      hand from the step after it was read. */
  lemma {:induction false} CompletedRoot(
    scope: Scope, run: seq<World>, i: nat, g: nat, t: nat, e: MapProtocol.Enumeration<Observation>)
    requires IsRun(scope, run) && i < |run| && g < |run[i].cache.completed| && e == run[i].cache.completed[g]
    requires e.startedAt < t <= e.finishedAt
    ensures t < i && IsEnumeratingSince(run[t], e.owner, e.startedAt)
    ensures ReadAt(run[t], e.owner).Some? <==> e.found.root.at < t
  {
    HistoryBefore(scope, run, i, g);
    if g < |run[i - 1].cache.completed| {
      CompletedRoot(scope, run, i - 1, g, t, e);
    } else {
      RootSince(scope, run, i - 1, e.owner, e.startedAt, t);
    }
  }

  /** At step `b` the enumeration had completed, or was under way with its root in hand. */
  ghost predicate HadItsRoot(w: World, g: nat, from: nat) {
    g < |w.cache.completed| || exists call :: IsEnumeratingSince(w, call, from) && ReadAt(w, call).Some?
  }

  /** The root behind enumeration `g` was read before step `b` exactly then. */
  lemma RootReadExactly(scope: Scope, run: seq<World>, i: nat, g: nat, b: nat)
    requires IsRun(scope, run) && b <= i < |run| && g < |run[i].cache.completed|
    ensures var e := run[i].cache.completed[g];
            e.found.root.at < b <==> HadItsRoot(run[b], g, e.startedAt)
  {
    var e := run[i].cache.completed[g];
    RunKeepsInv(scope, run, i);
    assert Witnessed(scope, run[i].log, e);
    CachesAreRun(scope, run);
    MapProtocol.CompletedAfter(scope.ttl, Caches(run), i, g, b);
    if b <= e.finishedAt {
      if e.startedAt < b {
        CompletedRoot(scope, run, i, g, b, e);
      }
      forall call | IsEnumeratingSince(run[b], call, e.startedAt)
        ensures e.startedAt < b && call == e.owner
      {
        StartedEarlier(scope, run, b, call, e.startedAt);
        CompletedRoot(scope, run, i, g, b, e);
        MapProtocol.EnumerationsNeverOverlap(scope.ttl, Caches(run), b);
      }
    }
  }

  /** A non-root allow rests on a root that was read before the request began if and only if,
      when it began, the enumeration it rests on had completed or was under way with its root
      in hand. */
  lemma AllowRootReadExactly(scope: Scope, run: seq<World>, i: nat, r: nat) returns (g: nat, chain: seq<DriveItem>)
    requires IsRun(scope, run) && i < |run|
    requires IsDecided(run[i], r) && run[i].requests[r].stage.outcome.Allow? && run[i].requests[r].id != scope.rootId
    ensures var request, completed := run[i].requests[r], run[i].cache.completed;
            && Grounded(scope, run[i], request, g, chain)
            && request.begunAt < i
            && (completed[g].found.root.at < request.begunAt <==>
                HadItsRoot(run[request.begunAt], g, completed[g].startedAt))
  {
    g, chain := AllowIsGrounded(scope, run, i, r);
    RunKeepsInv(scope, run, i);
    NowIsIndex(scope, run, i);
    assert RequestInv(scope, run[i], run[i].requests[r]);
    RootReadExactly(scope, run, i, g, run[i].requests[r].begunAt);
  }

  // ---- A run in which the root is trashed, and an item below it still allowed.

  lemma Extend(scope: Scope, run: seq<World>, w: World, e: Event) returns (run': seq<World>, w': World)
    requires IsRun(scope, run) && run[|run| - 1] == w && Enabled(scope, w, e)
    ensures IsRun(scope, run') && run'[|run'| - 1] == w' && w' == Apply(scope, w, e)
  {
    w' := Apply(scope, w, e);
    run' := run + [w'];
    assert Follows(scope, w, w');
  }

  function RootItem(scope: Scope, trashed: bool): DriveItem {
    DriveItem(scope.rootId, "corpus", FOLDER_MIME_TYPE, DriveIdOf(scope.location), [], trashed, false, None, None)
  }

  function FileItem(scope: Scope, id: string): DriveItem {
    DriveItem(id, "notes", "text/plain", DriveIdOf(scope.location), [scope.rootId], false, true, None, None)
  }

  function DriveIdOf(location: DriveLocation): Option<string> {
    match location
    case MyDrive => None
    case SharedDrive(id) => Some(id)
  }

  function DriveWith(scope: Scope, id: string, trashed: bool): Drive {
    map[scope.rootId := RootItem(scope, trashed), id := FileItem(scope, id)]
  }

  lemma ItemsPass(scope: Scope, id: string)
    ensures RootRefusal(RootItem(scope, false), scope.rootId, scope.location).None?
    ensures IsListedFolder(RootItem(scope, false)) && !IsFolder(FileItem(scope, id))
    ensures LiveOutcome(FileItem(scope, id), scope.location).None?
  {
    assert FOLDER_MIME_TYPE[28] == 'f' && SHORTCUT_MIME_TYPE[28] == 's';
    assert "text/plain"[0] == 't' && FOLDER_MIME_TYPE[0] == 'a' && SHORTCUT_MIME_TYPE[0] == 'a';
  }

  lemma ProtocolMoves(scope: Scope, run: seq<World>, w: World, step: MapProtocol.Step<Observation>)
    returns (run': seq<World>, w': World)
    requires IsRun(scope, run) && run[|run| - 1] == w && Enabled(scope, w, Protocol(step))
    ensures IsRun(scope, run') && run'[|run'| - 1] == w'
    ensures w'.cache == MapProtocol.Apply(scope.ttl, w.cache, step)
    ensures w'.log == w.log + [Current(w)] && w'.requests == w.requests
    ensures w'.readings == if step.Start? then w.readings[step.id := Reads(None, [])] else w.readings
  {
    run', w' := Extend(scope, run, w, Protocol(step));
  }

  /** A first call misses and takes the lock, of a Drive that holds the root and one file. */
  lemma Holding(scope: Scope, id: string) returns (run: seq<World>, w: World)
    requires id != scope.rootId
    ensures IsRun(scope, run) && run[|run| - 1] == w
    ensures w.cache == MapProtocol.State(
                         3, 0.0, None, 0.0, 0, Some(0), map[0 := MapProtocol.Call(false, 0, 0.0, MapProtocol.Holding(0))], [])
    ensures w.log == seq(4, t => DriveWith(scope, id, false)) && w.readings == map[] && w.requests == map[]
  {
    w := World(MapProtocol.State(0, 0.0, None, 0.0, 0, None, map[], []), [DriveWith(scope, id, false)], map[], map[]);
    run := [w];
    run, w := ProtocolMoves(scope, run, w, MapProtocol.Begin(0, false));
    run, w := ProtocolMoves(scope, run, w, MapProtocol.Check(0));
    run, w := ProtocolMoves(scope, run, w, MapProtocol.Acquire(0));
  }

  lemma Enumerating(scope: Scope, id: string) returns (run: seq<World>, w: World)
    requires id != scope.rootId
    ensures IsRun(scope, run) && run[|run| - 1] == w
    ensures w.cache == MapProtocol.State(
                         5, 0.0, None, 0.0, 0, Some(0),
                         map[0 := MapProtocol.Call(false, 0, 0.0, MapProtocol.Enumerating(0, 0.0, 4))], [])
    ensures w.log == seq(6, t => DriveWith(scope, id, false))
    ensures w.readings == map[0 := Reads(None, [])] && w.requests == map[]
  {
    run, w := Holding(scope, id);
    run, w := ProtocolMoves(scope, run, w, MapProtocol.Compare(0));
    run, w := ProtocolMoves(scope, run, w, MapProtocol.Start(0));
  }

  /** It reads the root and then the folders, which are the root alone. */
  lemma Listed(scope: Scope, id: string) returns (run: seq<World>, w: World)
    requires id != scope.rootId
    ensures IsRun(scope, run) && run[|run| - 1] == w
    ensures w.cache == MapProtocol.State(
                         7, 0.0, None, 0.0, 0, Some(0),
                         map[0 := MapProtocol.Call(false, 0, 0.0, MapProtocol.Enumerating(0, 0.0, 4))], [])
    ensures w.log == seq(8, t => DriveWith(scope, id, false)) && w.requests == map[]
    ensures var root := RootItem(scope, false);
            w.readings == map[0 := Reads(Some(Sighting(root, 5)), [Sighting(root, 6)])]
  {
    run, w := Enumerating(scope, id);
    ItemsPass(scope, id);
    var root := RootItem(scope, false);
    run, w := Extend(scope, run, w, ReadRoot(0));
    assert w.readings == map[0 := Reads(Some(Sighting(root, 5)), [])];
    run, w := Extend(scope, run, w, ReadFolders(0, [root]));
    assert SeenNow([root], 6) == [Sighting(root, 6)];
    assert [] + [Sighting(root, 6)] == [Sighting(root, 6)];
  }

  /** Its map holds the root alone. */
  lemma RootAlone(scope: Scope)
    ensures IsFolderMap(scope.rootId, {RootItem(scope, false)}, scope.location, map[scope.rootId := "."])
  {
    assert Chain(scope.rootId, {RootItem(scope, false)}, scope.location, []) && End(scope.rootId, []) == scope.rootId;
  }

  lemma Enumerated(scope: Scope, id: string) returns (run: seq<World>, w: World, found: Observation)
    requires id != scope.rootId && scope.ttl > 0.0
    ensures IsRun(scope, run) && run[|run| - 1] == w
    ensures found.paths == map[scope.rootId := "."]
    ensures w.cache == MapProtocol.State(
                         8, 0.0, Some(found), scope.ttl, 1, None,
                         map[0 := MapProtocol.Call(false, 0, 0.0, MapProtocol.Returned(found, MapProtocol.Own(0), 0.0, 7))],
                         [MapProtocol.Enumeration(0, found, 0.0, 4, 7)])
    ensures w.log == seq(9, t => DriveWith(scope, id, false)) && w.requests == map[]
  {
    run, w := Listed(scope, id);
    var root := RootItem(scope, false);
    var folders := [Sighting(root, 6)];
    SeesAll(scope, id, w.log, folders);
    RootAlone(scope);
    found := Observation(Sighting(root, 5), folders, map[scope.rootId := "."]);
    run, w := Extend(scope, run, w, Finish(0, map[scope.rootId := "."]));
  }

  lemma SeesAll(scope: Scope, id: string, log: seq<Drive>, folders: seq<Sighting>)
    requires folders == [Sighting(RootItem(scope, false), 6)] && log == seq(8, t => DriveWith(scope, id, false))
    ensures Items(folders) == {RootItem(scope, false)} && Complete(log, 4, 7, Items(folders))
  {
    ItemsPass(scope, id);
    forall f: DriveItem | IsListedFolder(f) && forall t :: 4 <= t <= 7 ==> Stands(log, f, t)
      ensures f in Items(folders)
    {
      assert Stands(log, f, 7);
    }
  }

  /** Then the root is trashed, and only then a request begins and is read and probed. */
  lemma AskedAfterTrashing(scope: Scope, id: string) returns (run: seq<World>, w: World, found: Observation)
    requires id != scope.rootId && scope.ttl > 0.0
    ensures IsRun(scope, run) && run[|run| - 1] == w
    ensures found.paths == map[scope.rootId := "."]
    ensures w.cache == MapProtocol.State(
                         12, 0.0, Some(found), scope.ttl, 1, None,
                         map[0 := MapProtocol.Call(false, 0, 0.0, MapProtocol.Returned(found, MapProtocol.Own(0), 0.0, 7))],
                         [MapProtocol.Enumeration(0, found, 0.0, 4, 7)])
    ensures w.log == seq(9, t => DriveWith(scope, id, false)) + seq(4, t => DriveWith(scope, id, true))
    ensures w.requests == map[0 := Request(id, 9, Probed(FileItem(scope, id), 10, Probe(true, 1, 0.0, 11)))]
  {
    run, w, found := Enumerated(scope, id);
    ItemsPass(scope, id);
    run, w := Extend(scope, run, w, Mutate(DriveWith(scope, id, true)));
    run, w := Extend(scope, run, w, Ask(0, id));
    run, w := Extend(scope, run, w, ReadItem(0));
    assert w.requests == map[0 := Request(id, 9, Read(FileItem(scope, id), 10))];
    run, w := Extend(scope, run, w, TryCache(0));
  }

  lemma Answered(scope: Scope, id: string) returns (run: seq<World>, w: World)
    requires id != scope.rootId && scope.ttl > 0.0
    ensures IsRun(scope, run) && run[|run| - 1] == w && Logged(w)
    ensures w.log == seq(9, t => DriveWith(scope, id, false)) + seq(6, t => DriveWith(scope, id, true))
    ensures HasReturned(w, 1) && Found(w, 1) == map[scope.rootId := "."]
    ensures w.requests == map[0 := Request(id, 9, Looking(FileItem(scope, id), 10, Probe(true, 1, 0.0, 11), 1))]
  {
    var found;
    run, w, found := AskedAfterTrashing(scope, id);
    run, w := Extend(scope, run, w, LookUp(0, 1));
    run, w := Extend(scope, run, w, Protocol(MapProtocol.Check(1)));
  }

  /** The item is allowed, although the root was trashed before its request began and has
      been since. */
  lemma TrashedRootStillAllows(scope: Scope, id: string) returns (run: seq<World>, w: World)
    requires id != scope.rootId && scope.ttl > 0.0
    ensures IsRun(scope, run) && run[|run| - 1] == w
    ensures IsDecided(w, 0) && w.requests[0].id == id && w.requests[0].stage.outcome == Allow(FileItem(scope, id), "notes")
    ensures forall t :: w.requests[0].begunAt <= t < |w.log| ==>
              && scope.rootId in w.log[t]
              && RootOutcome(w.log[t][scope.rootId], scope.rootId, scope.location) == Refuse(Trashed)
  {
    run, w := Answered(scope, id);
    run, w := Extend(scope, run, w, Settle(0));
    assert forall t :: 9 <= t < |w.log| ==> w.log[t] == DriveWith(scope, id, true);
  }
}
