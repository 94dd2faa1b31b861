/** Authorization over the folder-map protocol, while Drive itself changes between steps.

    A request reads its item live, then asks for the map, and retries once with a forced
    refresh if a reused map has no place for the item's parent. An enumeration reads the
    root and then the folders, page by page, so it too can see Drive at several moments. */
module AuthorizationRuns {
  import opened Outcomes
  import opened DriveItems
  import opened FolderWalk
  import opened Verdicts
  import MapProtocol

  type CallId = MapProtocol.CallId

  datatype Scope = Scope(rootId: string, location: DriveLocation, ttl: real)

  /** An item and the step it was read at. */
  datatype Sighting = Sighting(item: DriveItem, at: nat)

  /** What one enumeration read, and the map it built from that. */
  datatype Observation = Observation(root: Sighting, folders: seq<Sighting>, paths: map<string, string>)

  datatype Reads = Reads(root: Option<Sighting>, folders: seq<Sighting>)

  /** `_cached_folder_map() is not None` before the first lookup, with the number of
      enumerations completed by then and the clock it read. */
  datatype Probe = Probe(reused: bool, seen: nat, clock: real, at: nat)

  datatype Stage =
    | Asked
    | Read(item: DriveItem, readAt: nat)
    | Probed(item: DriveItem, readAt: nat, probe: Probe)
    | Looking(item: DriveItem, readAt: nat, probe: Probe, call: CallId)
    | Retrying(item: DriveItem, readAt: nat, call: CallId)
    | Decided(item: DriveItem, readAt: nat, outcome: Outcome, lookup: Option<CallId>)
    | Died

  datatype Request = Request(id: string, begunAt: nat, stage: Stage)

  /** `log[t]` is Drive at step `t`. */
  datatype World = World(
    cache: MapProtocol.State<Observation>,
    log: seq<Drive>,
    readings: map<CallId, Reads>,
    requests: map<nat, Request>)

  datatype Event =
    | Mutate(drive: Drive)
    | Protocol(step: MapProtocol.Step<Observation>)
    | ReadRoot(call: CallId)
    | ReadFolders(call: CallId, items: seq<DriveItem>)
    | Finish(call: CallId, paths: map<string, string>)
    | Ask(request: nat, id: string)
    | ReadItem(request: nat)
    | TryCache(request: nat)
    | LookUp(request: nat, call: CallId)
    | Retry(request: nat, call: CallId)
    | Settle(request: nat)
    | Die(request: nat)

  ghost predicate Init(w: World) {
    MapProtocol.Init(w.cache) && |w.log| == 1 && w.readings == map[] && w.requests == map[]
  }

  function Items(sightings: seq<Sighting>): set<DriveItem> {
    set s | s in sightings :: s.item
  }

  predicate Stands(log: seq<Drive>, item: DriveItem, t: nat) {
    t < |log| && item.id in log[t] && log[t][item.id] == item
  }

  /** Every folder that stood unchanged from `from` to `to` is among `items`: what a listing
      that passed `_require_complete` is taken to guarantee. */
  ghost predicate Complete(log: seq<Drive>, from: nat, to: nat, items: set<DriveItem>) {
    forall f: DriveItem :: IsListedFolder(f) && (forall t :: from <= t <= to ==> Stands(log, f, t)) ==> f in items
  }

  // ---- Steps.

  function Now(w: World): nat {
    w.cache.now
  }

  predicate Logged(w: World) {
    |w.log| == Now(w) + 1
  }

  function Current(w: World): Drive
    requires Logged(w)
  {
    w.log[Now(w)]
  }

  predicate IsEnumerating(w: World, call: CallId) {
    MapProtocol.IsEnumerating(w.cache, call) && call in w.readings
  }

  predicate HasReturned(w: World, call: CallId) {
    call in w.cache.calls && w.cache.calls[call].phase.Returned?
  }

  function Found(w: World, call: CallId): map<string, string>
    requires HasReturned(w, call)
  {
    w.cache.calls[call].phase.found.paths
  }

  /** What the event is to the folder-map protocol. */
  function ProtocolStep(w: World, e: Event): MapProtocol.Step<Observation>
    requires e.Finish? ==> IsEnumerating(w, e.call) && w.readings[e.call].root.Some?
  {
    match e
    case Protocol(step) => step
    case Finish(call, paths) =>
      MapProtocol.Finish(call, Observation(w.readings[call].root.value, w.readings[call].folders, paths))
    case LookUp(_, call) => MapProtocol.Begin(call, false)
    case Retry(_, call) => MapProtocol.Begin(call, true)
    case _ => MapProtocol.Other
  }

  predicate AtStage(w: World, request: nat, at: Stage -> bool) {
    request in w.requests && at(w.requests[request].stage)
  }

  ghost predicate Enabled(scope: Scope, w: World, e: Event) {
    && Logged(w)
    && match e
       case Mutate(_) => true
       case Protocol(step) => !step.Finish? && MapProtocol.Enabled(w.cache, step)
       case ReadRoot(call) =>
         && IsEnumerating(w, call) && w.readings[call].root.None?
         && scope.rootId in Current(w)
         && RootRefusal(Current(w)[scope.rootId], scope.rootId, scope.location).None?
       case ReadFolders(call, items) =>
         && IsEnumerating(w, call) && w.readings[call].root.Some?
         && forall f :: f in items ==> IsListedFolder(f) && Stands(w.log, f, Now(w))
       case Finish(call, paths) =>
         && IsEnumerating(w, call) && w.readings[call].root.Some?
         && Complete(w.log, w.cache.calls[call].phase.startedAt, Now(w), Items(w.readings[call].folders))
         && IsFolderMap(scope.rootId, Items(w.readings[call].folders), scope.location, paths)
       case Ask(request, _) => request !in w.requests
       case ReadItem(request) =>
         AtStage(w, request, (s: Stage) => s.Asked?) && w.requests[request].id in Current(w)
       case TryCache(request) => AtStage(w, request, (s: Stage) => s.Read?)
       case LookUp(request, call) =>
         AtStage(w, request, (s: Stage) => s.Probed?) && call !in w.cache.calls
       case Retry(request, call) =>
         && AtStage(w, request, (s: Stage) => s.Looking?) && call !in w.cache.calls
         && var s := w.requests[request].stage;
         && s.probe.reused && HasReturned(w, s.call)
         && |s.item.parents| == 1 && s.item.parents[0] !in Found(w, s.call)
       case Settle(request) =>
         && AtStage(w, request, (s: Stage) => s.Looking? || s.Retrying?)
         && var s := w.requests[request].stage;
         && HasReturned(w, s.call) && |s.item.parents| == 1
         && (s.Looking? && s.probe.reused ==> s.item.parents[0] in Found(w, s.call))
       case Die(request) => request in w.requests && !w.requests[request].stage.Decided?
  }

  /** The request's next stage. */
  function Advance(scope: Scope, w: World, e: Event): Stage
    requires Logged(w)
    requires e.ReadItem? ==> e.request in w.requests && w.requests[e.request].id in Current(w)
    requires e.TryCache? ==> e.request in w.requests && w.requests[e.request].stage.Read?
    requires e.LookUp? ==> e.request in w.requests && w.requests[e.request].stage.Probed?
    requires e.Retry? ==> e.request in w.requests && w.requests[e.request].stage.Looking?
    requires e.Settle? ==>
               && e.request in w.requests
               && (w.requests[e.request].stage.Looking? || w.requests[e.request].stage.Retrying?)
               && HasReturned(w, w.requests[e.request].stage.call) && |w.requests[e.request].stage.item.parents| == 1
  {
    match e
    case ReadItem(request) =>
      var id := w.requests[request].id;
      var item := Current(w)[id];
      if id == scope.rootId then Decided(item, Now(w), RootOutcome(item, scope.rootId, scope.location), None)
      else if LiveOutcome(item, scope.location).Some? then Decided(item, Now(w), LiveOutcome(item, scope.location).value, None)
      else Read(item, Now(w))
    case TryCache(request) =>
      var s := w.requests[request].stage;
      Probed(s.item, s.readAt, Probe(MapProtocol.Usable(w.cache), |w.cache.completed|, w.cache.clock, Now(w)))
    case LookUp(request, call) =>
      var s := w.requests[request].stage;
      Looking(s.item, s.readAt, s.probe, call)
    case Retry(request, call) =>
      var s := w.requests[request].stage;
      Retrying(s.item, s.readAt, call)
    case Settle(request) =>
      var s := w.requests[request].stage;
      Decided(s.item, s.readAt, MapOutcome(s.item, Found(w, s.call)), Some(s.call))
    case Die(_) => Died
    case _ => Asked
  }

  predicate OfRequest(e: Event) {
    e.Ask? || e.ReadItem? || e.TryCache? || e.LookUp? || e.Retry? || e.Settle? || e.Die?
  }

  ghost function Apply(scope: Scope, w: World, e: Event): World
    requires Enabled(scope, w, e)
  {
    World(
      MapProtocol.Apply(scope.ttl, w.cache, ProtocolStep(w, e)),
      w.log + [if e.Mutate? then e.drive else Current(w)],
      match e
        case Protocol(step) => if step.Start? then w.readings[step.id := Reads(None, [])] else w.readings
        case ReadRoot(call) => w.readings[call := Reads(Some(Sighting(Current(w)[scope.rootId], Now(w))), [])]
        case ReadFolders(call, items) =>
          w.readings[call := w.readings[call].(folders := w.readings[call].folders + SeenNow(items, Now(w)))]
        case _ => w.readings,
      if OfRequest(e) then
        w.requests[e.request :=
          if e.Ask? then Request(e.id, Now(w), Asked)
          else w.requests[e.request].(stage := Advance(scope, w, e))]
      else w.requests)
  }

  function SeenNow(items: seq<DriveItem>, now: nat): (r: seq<Sighting>)
    ensures forall s :: s in r ==> s.item in items && s.at == now
  {
    seq(|items|, i requires 0 <= i < |items| => Sighting(items[i], now))
  }

  // ---- What every reachable world satisfies.

  /** The sighting is true: that is what Drive answered at that step, within the window. */
  ghost predicate Seen(log: seq<Drive>, s: Sighting, from: nat, to: nat) {
    from <= s.at <= to && Stands(log, s.item, s.at)
  }

  ghost predicate TrueRoot(scope: Scope, log: seq<Drive>, root: Sighting, from: nat, to: nat) {
    && from <= root.at <= to && root.at < |log|
    && scope.rootId in log[root.at] && log[root.at][scope.rootId] == root.item
    && root.item.id == scope.rootId && scope.location.Contains(root.item.driveId) && !root.item.trashed
    && root.item.mimeType == FOLDER_MIME_TYPE
  }

  ghost predicate TrueFolders(log: seq<Drive>, folders: seq<Sighting>, from: nat, to: nat) {
    forall s :: s in folders ==> Seen(log, s, from, to) && IsListedFolder(s.item)
  }

  ghost predicate TrueReading(scope: Scope, log: seq<Drive>, r: Reads, from: nat, to: nat) {
    && (r.root.Some? ==> TrueRoot(scope, log, r.root.value, from, to))
    && TrueFolders(log, r.folders, from, to)
  }

  /** A completed enumeration read only what Drive answered between its start and its end,
      missed no folder that stood all that time, and its map is the map of what it read. */
  ghost predicate Witnessed(scope: Scope, log: seq<Drive>, e: MapProtocol.Enumeration<Observation>) {
    && TrueRoot(scope, log, e.found.root, e.startedAt, e.finishedAt)
    && TrueFolders(log, e.found.folders, e.startedAt, e.finishedAt)
    && Complete(log, e.startedAt, e.finishedAt, Items(e.found.folders))
    && IsFolderMap(scope.rootId, Items(e.found.folders), scope.location, e.found.paths)
  }

  ghost predicate ItemWasRead(log: seq<Drive>, request: Request, item: DriveItem, readAt: nat) {
    && request.begunAt < readAt < |log|
    && request.id in log[readAt] && log[readAt][request.id] == item
  }

  ghost predicate ItemPassed(scope: Scope, log: seq<Drive>, request: Request, item: DriveItem, readAt: nat) {
    && ItemWasRead(log, request, item, readAt)
    && request.id != scope.rootId
    && scope.location.Contains(item.driveId) && !item.trashed
    && item.mimeType != SHORTCUT_MIME_TYPE && |item.parents| == 1
  }

  /** A probe that found nothing usable was right: nothing completed before it is fresh at
      its clock or later. */
  ghost predicate ProbeInv(
    ttl: real, completed: seq<MapProtocol.Enumeration<Observation>>, probe: Probe, readAt: nat)
  {
    && readAt < probe.at && probe.seen <= |completed|
    && (forall j :: 0 <= j < probe.seen ==> completed[j].finishedAt < probe.at)
    && (forall j :: probe.seen <= j < |completed| ==> probe.at <= completed[j].finishedAt)
    && (!probe.reused && ttl > 0.0 && probe.seen > 0 ==> completed[probe.seen - 1].started + ttl <= probe.clock)
  }

  /** The map a refusal rests on was completed after the item was read. */
  ghost predicate FinishedAfter(completed: seq<MapProtocol.Enumeration<Observation>>, found: Observation, readAt: nat) {
    exists g :: 0 <= g < |completed| && completed[g].found == found && readAt < completed[g].finishedAt
  }

  ghost predicate DecisionInv(scope: Scope, w: World, request: Request) 
    requires request.stage.Decided?
  {
    var d := request.stage;
    && ItemWasRead(w.log, request, d.item, d.readAt)
    && if request.id == scope.rootId then d.lookup.None? && d.outcome == RootOutcome(d.item, scope.rootId, scope.location)
       else if LiveOutcome(d.item, scope.location).Some? then d.lookup.None? && d.outcome == LiveOutcome(d.item, scope.location).value
       else
         && d.lookup.Some? && HasReturned(w, d.lookup.value)
         && w.cache.calls[d.lookup.value].begunAt > d.readAt
         && d.outcome == MapOutcome(d.item, Found(w, d.lookup.value))
         && (d.outcome.Refuse? ==>
               FinishedAfter(w.cache.completed, w.cache.calls[d.lookup.value].phase.found, d.readAt))
  }

  ghost predicate RequestInv(scope: Scope, w: World, request: Request) {
    && request.begunAt < Now(w)
    && match request.stage
       case Asked => true
       case Read(item, readAt) => ItemPassed(scope, w.log, request, item, readAt) && readAt < Now(w)
       case Probed(item, readAt, probe) =>
         && ItemPassed(scope, w.log, request, item, readAt)
         && ProbeInv(scope.ttl, w.cache.completed, probe, readAt)
         && probe.at < Now(w) && probe.clock <= w.cache.clock
       case Looking(item, readAt, probe, call) =>
         && ItemPassed(scope, w.log, request, item, readAt)
         && ProbeInv(scope.ttl, w.cache.completed, probe, readAt)
         && probe.at < Now(w)
         && call in w.cache.calls
         && w.cache.calls[call].begunAt > probe.at
         && w.cache.calls[call].begunClock >= probe.clock
       case Retrying(item, readAt, call) =>
         && ItemPassed(scope, w.log, request, item, readAt)
         && call in w.cache.calls
         && w.cache.calls[call].refresh
         && w.cache.calls[call].begunAt > readAt
       case Decided(_, _, _, _) => DecisionInv(scope, w, request)
       case Died => true
  }

  ghost predicate ReadingsInv(scope: Scope, w: World) {
    forall call :: IsEnumerating(w, call) ==>
      TrueReading(scope, w.log, w.readings[call], w.cache.calls[call].phase.startedAt, Now(w))
  }

  ghost predicate HistoryInv(scope: Scope, w: World) {
    forall g :: 0 <= g < |w.cache.completed| ==> Witnessed(scope, w.log, w.cache.completed[g])
  }

  ghost predicate RequestsInv(scope: Scope, w: World) {
    forall r :: r in w.requests ==> RequestInv(scope, w, w.requests[r])
  }

  ghost predicate Inv(scope: Scope, w: World) {
    && Logged(w)
    && MapProtocol.Inv(scope.ttl, w.cache)
    && ReadingsInv(scope, w)
    && HistoryInv(scope, w)
    && RequestsInv(scope, w)
  }

  /** What every event does to the world: time passes, the log and the history only grow,
      and nothing a call was asked or has returned changes. */
  ghost predicate Evolves(w: World, w': World) {
    && Logged(w) && Logged(w') && w.log <= w'.log
    && MapProtocol.Grows(w.cache, w'.cache)
    && forall j :: |w.cache.completed| <= j < |w'.cache.completed| ==> w'.cache.completed[j].finishedAt == Now(w)
  }

  lemma CacheStep(scope: Scope, w: World, e: Event)
    requires Inv(scope, w) && Enabled(scope, w, e)
    ensures MapProtocol.Inv(scope.ttl, Apply(scope, w, e).cache)
    ensures Evolves(w, Apply(scope, w, e))
  {
    MapProtocol.StepKeepsInv(scope.ttl, w.cache, ProtocolStep(w, e));
    MapProtocol.StepGrows(scope.ttl, w.cache, ProtocolStep(w, e));
  }

  lemma WitnessStays(scope: Scope, log: seq<Drive>, log': seq<Drive>, e: MapProtocol.Enumeration<Observation>)
    requires Witnessed(scope, log, e) && log <= log' && e.finishedAt < |log|
    ensures Witnessed(scope, log', e)
  {
    forall f: DriveItem | IsListedFolder(f) && forall t :: e.startedAt <= t <= e.finishedAt ==> Stands(log', f, t)
      ensures f in Items(e.found.folders)
    {
      assert forall t :: e.startedAt <= t <= e.finishedAt ==> Stands(log', f, t) ==> Stands(log, f, t);
    }
  }

  lemma HistoryKept(scope: Scope, w: World, e: Event)
    requires Inv(scope, w) && Enabled(scope, w, e)
    ensures HistoryInv(scope, Apply(scope, w, e))
  {
    CacheStep(scope, w, e);
    var w' := Apply(scope, w, e);
    forall g | 0 <= g < |w'.cache.completed|
      ensures Witnessed(scope, w'.log, w'.cache.completed[g])
    {
      MapProtocol.OnlyFinishCompletes(scope.ttl, w.cache, ProtocolStep(w, e));
      if g >= |w.cache.completed| {
        NewIsWitnessed(scope, w, e);
      }
      WitnessStays(scope, w.log, w'.log, w'.cache.completed[g]);
    }
  }

  lemma NewIsWitnessed(scope: Scope, w: World, e: Event)
    requires Inv(scope, w) && Enabled(scope, w, e) && e.Finish?
    ensures var w' := Apply(scope, w, e);
            && |w'.cache.completed| == |w.cache.completed| + 1
            && Witnessed(scope, w.log, w'.cache.completed[|w.cache.completed|])
  {
  }

  lemma TrueReadingStays(scope: Scope, log: seq<Drive>, log': seq<Drive>, r: Reads, from: nat, to: nat)
    requires TrueReading(scope, log, r, from, to) && log <= log'
    ensures TrueReading(scope, log', r, from, to + 1)
  {
  }

  lemma EnumeratingBefore(scope: Scope, w: World, e: Event, call: CallId)
    requires Inv(scope, w) && Enabled(scope, w, e)
    requires IsEnumerating(Apply(scope, w, e), call)
    ensures
      || (e == Protocol(MapProtocol.Start(call)) && Apply(scope, w, e).readings[call] == Reads(None, []))
      || (IsEnumerating(w, call) && Apply(scope, w, e).cache.calls[call].phase == w.cache.calls[call].phase)
  {
    if e != Protocol(MapProtocol.Start(call)) {
      MapProtocol.EnumeratingBefore(scope.ttl, w.cache, ProtocolStep(w, e), call);
    }
  }

  lemma ReadingsKept(scope: Scope, w: World, e: Event)
    requires Inv(scope, w) && Enabled(scope, w, e)
    ensures ReadingsInv(scope, Apply(scope, w, e))
  {
    CacheStep(scope, w, e);
    var w' := Apply(scope, w, e);
    forall call | IsEnumerating(w', call)
      ensures TrueReading(scope, w'.log, w'.readings[call], w'.cache.calls[call].phase.startedAt, Now(w'))
    {
      EnumeratingBefore(scope, w, e, call);
      if w'.readings[call] != Reads(None, []) {
        TrueReadingStays(scope, w.log, w'.log, w.readings[call], w.cache.calls[call].phase.startedAt, Now(w));
        NewReadingIsTrue(scope, w, e, call);
      }
    }
  }

  /** What an enumeration adds to its reading is what Drive answers now. */
  lemma NewReadingIsTrue(scope: Scope, w: World, e: Event, call: CallId)
    requires Inv(scope, w) && Enabled(scope, w, e)
    requires IsEnumerating(w, call)
    requires e != Protocol(MapProtocol.Start(call))
    ensures call in Apply(scope, w, e).readings
    ensures TrueReading(scope, w.log, Apply(scope, w, e).readings[call], w.cache.calls[call].phase.startedAt, Now(w))
  {
    assert MapProtocol.CallInv(scope.ttl, w.cache, call, w.cache.calls[call]);
  }

  /** A request that does not move keeps its invariant while the world goes on. */
  lemma RequestStays(scope: Scope, w: World, w': World, request: Request)
    requires Evolves(w, w') && RequestInv(scope, w, request)
    ensures RequestInv(scope, w', request)
  {
    if request.stage.Decided? && request.stage.lookup.Some? && request.stage.outcome.Refuse? {
      var found, readAt := w.cache.calls[request.stage.lookup.value].phase.found, request.stage.readAt;
      var g :| 0 <= g < |w.cache.completed| && w.cache.completed[g].found == found && readAt < w.cache.completed[g].finishedAt;
      assert w'.cache.completed[g] == w.cache.completed[g];
    }
  }

  /** A map that answered after a probe found nothing usable finished after the item was
      read, whichever line of `_folder_map` returned it. */
  lemma AnswerFinishedAfter(scope: Scope, w: World, request: Request)
    requires MapProtocol.Inv(scope.ttl, w.cache) && RequestInv(scope, w, request)
    requires request.stage.Looking? || request.stage.Retrying?
    requires HasReturned(w, request.stage.call)
    requires request.stage.Looking? ==> !request.stage.probe.reused
    ensures FinishedAfter(w.cache.completed, w.cache.calls[request.stage.call].phase.found, request.stage.readAt)
  {
    var s, completed := request.stage, w.cache.completed;
    var call := w.cache.calls[s.call];
    assert MapProtocol.CallInv(scope.ttl, w.cache, s.call, call);
    var g: nat :| MapProtocol.Justifies(scope.ttl, completed, s.call, call, g);
    if call.phase.source.FirstCheck? {
      CheckedAfterProbe(scope.ttl, completed, s.probe, s.readAt, s.call, call, g);
    }
    assert s.readAt < completed[g].finishedAt;
  }

  lemma CheckedAfterProbe(
    ttl: real, completed: seq<MapProtocol.Enumeration<Observation>>, probe: Probe, readAt: nat,
    id: CallId, call: MapProtocol.Call<Observation>, g: nat)
    requires ProbeInv(ttl, completed, probe, readAt) && !probe.reused
    requires call.phase.Returned? && call.phase.source.FirstCheck?
    requires MapProtocol.Justifies(ttl, completed, id, call, g)
    requires probe.at < call.begunAt < call.phase.at && probe.clock <= call.begunClock <= call.phase.clock
    ensures probe.seen <= g && readAt < completed[g].finishedAt
  {
    if probe.seen > 0 {
      var last := probe.seen - 1;
      assert completed[last].finishedAt < probe.at;
      assert g >= last;
    }
  }

  lemma ReadMoves(scope: Scope, w: World, e: Event)
    requires Inv(scope, w) && Enabled(scope, w, e) && (e.Ask? || e.ReadItem? || e.Die?)
    ensures RequestInv(scope, Apply(scope, w, e), Apply(scope, w, e).requests[e.request])
  {
    CacheStep(scope, w, e);
    assert e.request in w.requests ==> RequestInv(scope, w, w.requests[e.request]);
  }

  lemma CacheMoves(scope: Scope, w: World, e: Event)
    requires Inv(scope, w) && Enabled(scope, w, e) && (e.LookUp? || e.Retry?)
    ensures RequestInv(scope, Apply(scope, w, e), Apply(scope, w, e).requests[e.request])
  {
    CacheStep(scope, w, e);
    RequestStays(scope, w, Apply(scope, w, e), w.requests[e.request]);
  }

  lemma ProbeMoves(scope: Scope, w: World, e: Event)
    requires Inv(scope, w) && Enabled(scope, w, e) && e.TryCache?
    ensures RequestInv(scope, Apply(scope, w, e), Apply(scope, w, e).requests[e.request])
  {
    CacheStep(scope, w, e);
    RequestStays(scope, w, Apply(scope, w, e), w.requests[e.request]);
    ProbeIsRight(scope, w, e);
  }

  lemma ProbeIsRight(scope: Scope, w: World, e: Event)
    requires Inv(scope, w) && Enabled(scope, w, e) && e.TryCache?
    ensures var s := Advance(scope, w, e);
            s.Probed? && ProbeInv(scope.ttl, w.cache.completed, s.probe, s.readAt)
  {
    assert RequestInv(scope, w, w.requests[e.request]);
  }

  lemma SettleMoves(scope: Scope, w: World, e: Event)
    requires Inv(scope, w) && Enabled(scope, w, e) && e.Settle?
    ensures RequestInv(scope, Apply(scope, w, e), Apply(scope, w, e).requests[e.request])
  {
    CacheStep(scope, w, e);
    var request := w.requests[e.request];
    assert RequestInv(scope, w, request);
    if MapOutcome(request.stage.item, Found(w, request.stage.call)).Refuse? {
      AnswerFinishedAfter(scope, w, request);
    }
    RequestStays(scope, w, Apply(scope, w, e), request.(stage := Advance(scope, w, e)));
  }

  lemma EventKeepsInv(scope: Scope, w: World, e: Event)
    requires Inv(scope, w) && Enabled(scope, w, e)
    ensures Inv(scope, Apply(scope, w, e))
  {
    CacheStep(scope, w, e);
    HistoryKept(scope, w, e);
    ReadingsKept(scope, w, e);
    var w' := Apply(scope, w, e);
    forall r | r in w'.requests
      ensures RequestInv(scope, w', w'.requests[r])
    {
      if !OfRequest(e) || r != e.request {
        RequestStays(scope, w, w', w.requests[r]);
      } else if e.Settle? {
        SettleMoves(scope, w, e);
      } else if e.TryCache? {
        ProbeMoves(scope, w, e);
      } else if e.LookUp? || e.Retry? {
        CacheMoves(scope, w, e);
      } else {
        ReadMoves(scope, w, e);
      }
    }
  }

  // ---- Runs, and what they guarantee.

  ghost predicate Follows(scope: Scope, w: World, w': World) {
    exists e: Event :: Enabled(scope, w, e) && w' == Apply(scope, w, e)
  }

  ghost predicate IsRun(scope: Scope, run: seq<World>) {
    && run != [] && Init(run[0])
    && forall i :: 0 <= i < |run| - 1 ==> Follows(scope, run[i], run[i + 1])
  }

  lemma {:induction false} RunKeepsInv(scope: Scope, run: seq<World>, i: nat)
    requires IsRun(scope, run) && i < |run|
    ensures Inv(scope, run[i])
  {
    if i > 0 {
      RunKeepsInv(scope, run, i - 1);
      assert Follows(scope, run[i - 1], run[i - 1 + 1]);
      var e: Event :| Enabled(scope, run[i - 1], e) && run[i] == Apply(scope, run[i - 1], e);
      EventKeepsInv(scope, run[i - 1], e);
    }
  }

  predicate IsDecided(w: World, r: nat) {
    r in w.requests && w.requests[r].stage.Decided?
  }

  /** The folder was in Drive, exactly as it appears in the chain, at some step of the window. */
  ghost predicate StoodWithin(log: seq<Drive>, folder: DriveItem, from: nat, to: nat) {
    exists t :: from <= t <= to && Stands(log, folder, t)
  }

  /** Enumeration `g` was fresh when the request looked: made inside the request, or within
      its time to live by the clock that the lookup read. */
  ghost predicate FreshEnough(scope: Scope, w: World, request: Request, g: nat)
    requires request.stage.Decided? && request.stage.lookup.Some? && HasReturned(w, request.stage.lookup.value)
    requires g < |w.cache.completed|
  {
    var e := w.cache.completed[g];
    var lookup := w.cache.calls[request.stage.lookup.value].phase;
    || request.begunAt < e.startedAt
    || (scope.ttl > 0.0 && lookup.clock < e.started + scope.ttl)
  }

  /** What a non-root allow rests on: live metadata read inside the request (in the measured
      location, untrashed, no shortcut, one parent), and a chain of eligible folders from the
      root to that parent, each of which Drive really answered during one enumeration that
      was fresh enough; the path it reports is the path of that chain. */
  ghost predicate Grounded(scope: Scope, w: World, request: Request, g: nat, chain: seq<DriveItem>)
    requires request.stage.Decided?
  {
    var item, completed := request.stage.item, w.cache.completed;
    && ItemPassed(scope, w.log, request, item, request.stage.readAt)
    && request.stage.outcome == Allow(item, ChildPath(ChainPath(chain), item.name))
    && request.stage.lookup.Some? && HasReturned(w, request.stage.lookup.value)
    && g < |completed|
    && FreshEnough(scope, w, request, g)
    && TrueRoot(scope, w.log, completed[g].found.root, completed[g].startedAt, completed[g].finishedAt)
    && Chain(scope.rootId, Items(completed[g].found.folders), scope.location, chain)
    && End(scope.rootId, chain) == item.parents[0]
    && forall f :: f in chain ==> StoodWithin(w.log, f, completed[g].startedAt, completed[g].finishedAt)
  }

  /** In any run, whatever Drive does between steps, every non-root allow is grounded. */
  lemma AllowIsGrounded(scope: Scope, run: seq<World>, i: nat, r: nat) returns (g: nat, chain: seq<DriveItem>)
    requires IsRun(scope, run) && i < |run|
    requires IsDecided(run[i], r) && run[i].requests[r].stage.outcome.Allow? && run[i].requests[r].id != scope.rootId
    ensures Grounded(scope, run[i], run[i].requests[r], g, chain)
  {
    RunKeepsInv(scope, run, i);
    var w, request := run[i], run[i].requests[r];
    assert RequestInv(scope, w, request);
    var item, call := request.stage.item, request.stage.lookup.value;
    assert MapProtocol.CallInv(scope.ttl, w.cache, call, w.cache.calls[call]);
    g :| MapProtocol.Justifies(scope.ttl, w.cache.completed, call, w.cache.calls[call], g);
    assert FreshEnough(scope, w, request, g);
    chain := ChainBehind(scope, w.log, w.cache.completed[g], item.parents[0]);
  }

  lemma ChainBehind(scope: Scope, log: seq<Drive>, e: MapProtocol.Enumeration<Observation>, id: string)
    returns (chain: seq<DriveItem>)
    requires Witnessed(scope, log, e) && id in e.found.paths
    ensures Chain(scope.rootId, Items(e.found.folders), scope.location, chain)
    ensures End(scope.rootId, chain) == id && e.found.paths[id] == ChainPath(chain)
    ensures forall f :: f in chain ==> StoodWithin(log, f, e.startedAt, e.finishedAt)
  {
    var listed := Items(e.found.folders);
    chain :| Chain(scope.rootId, listed, scope.location, chain) && End(scope.rootId, chain) == id;
    ChainIsListed(scope.rootId, listed, scope.location, chain);
    forall f | f in chain
      ensures StoodWithin(log, f, e.startedAt, e.finishedAt)
    {
      var s :| s in e.found.folders && s.item == f;
      assert Seen(log, s, e.startedAt, e.finishedAt);
    }
  }

  lemma {:induction false} ChainIsListed(rootId: string, listed: set<DriveItem>, location: DriveLocation, chain: seq<DriveItem>)
    requires Chain(rootId, listed, location, chain)
    ensures forall f :: f in chain ==> f in listed
  {
    if chain != [] {
      ChainIsListed(rootId, listed, location, chain[..|chain| - 1]);
      assert chain == chain[..|chain| - 1] + [chain[|chain| - 1]];
    }
  }

  /** No folders that all stood unchanged from `from` to `to` lead from the root to `id`. */
  ghost predicate NoStandingChain(scope: Scope, log: seq<Drive>, from: nat, to: nat, id: string) {
    forall listed, chain ::
      Chain(scope.rootId, listed, scope.location, chain) && Stood(log, chain, from, to) ==> End(scope.rootId, chain) != id
  }

  ghost predicate Stood(log: seq<Drive>, chain: seq<DriveItem>, from: nat, to: nat) {
    forall f, t :: f in chain && from <= t <= to ==> Stands(log, f, t)
  }

  /** Folders that stood throughout an enumeration were seen by it. */
  lemma {:induction false} StandingChainIsSeen(
    scope: Scope, log: seq<Drive>, e: MapProtocol.Enumeration<Observation>, listed: set<DriveItem>, chain: seq<DriveItem>)
    requires Complete(log, e.startedAt, e.finishedAt, Items(e.found.folders))
    requires Chain(scope.rootId, listed, scope.location, chain) && Stood(log, chain, e.startedAt, e.finishedAt)
    ensures Chain(scope.rootId, Items(e.found.folders), scope.location, chain)
  {
    if chain != [] {
      var front, last := chain[..|chain| - 1], chain[|chain| - 1];
      assert forall f :: f in front ==> f in chain;
      StandingChainIsSeen(scope, log, e, listed, front);
      assert last in chain && IsListedFolder(last);
      assert forall t :: e.startedAt <= t <= e.finishedAt ==> Stands(log, last, t);
    }
  }

  /** "Outside" is never said on a stale map: the enumeration it rests on finished after the
      item was read, no chain of the folders that enumeration saw reaches the parent, and so
      no folders that stood throughout it do. */
  lemma OutsideIsGrounded(scope: Scope, run: seq<World>, i: nat, r: nat) returns (g: nat)
    requires IsRun(scope, run) && i < |run|
    requires IsDecided(run[i], r) && run[i].requests[r].stage.outcome == Refuse(OutsideSubtree)
    ensures var w, request := run[i], run[i].requests[r];
            var item, completed := request.stage.item, run[i].cache.completed;
            && ItemPassed(scope, w.log, request, item, request.stage.readAt)
            && g < |completed|
            && request.stage.readAt < completed[g].finishedAt
            && Witnessed(scope, w.log, completed[g])
            && forall chain :: Chain(scope.rootId, Items(completed[g].found.folders), scope.location, chain) ==>
                 End(scope.rootId, chain) != item.parents[0]
    ensures var e := run[i].cache.completed[g];
            NoStandingChain(scope, run[i].log, e.startedAt, e.finishedAt, run[i].requests[r].stage.item.parents[0])
  {
    RunKeepsInv(scope, run, i);
    var w, request := run[i], run[i].requests[r];
    assert RequestInv(scope, w, request);
    var found, readAt := w.cache.calls[request.stage.lookup.value].phase.found, request.stage.readAt;
    g :| 0 <= g < |w.cache.completed| && w.cache.completed[g].found == found && readAt < w.cache.completed[g].finishedAt;
    var e := w.cache.completed[g];
    assert Witnessed(scope, w.log, e);
    forall listed, chain | Chain(scope.rootId, listed, scope.location, chain) && Stood(w.log, chain, e.startedAt, e.finishedAt)
      ensures End(scope.rootId, chain) != request.stage.item.parents[0]
    {
      StandingChainIsSeen(scope, w.log, e, listed, chain);
    }
  }

  /** Every other refusal of an item, in any run, rests on metadata read inside the request,
      and is given exactly when its rule is the first that this metadata breaks. */
  lemma RefusalsAreExact(scope: Scope, run: seq<World>, i: nat, r: nat)
    requires IsRun(scope, run) && i < |run|
    requires IsDecided(run[i], r) && run[i].requests[r].id != scope.rootId
    ensures var o, item := run[i].requests[r].stage.outcome, run[i].requests[r].stage.item;
            var here := scope.location.Contains(item.driveId);
            && ItemWasRead(run[i].log, run[i].requests[r], item, run[i].requests[r].stage.readAt)
            && (o == Refuse(WrongLocation) <==> !here)
            && (o == Refuse(Trashed) <==> here && item.trashed)
            && (o == Refuse(Shortcut) <==> here && !item.trashed && item.mimeType == SHORTCUT_MIME_TYPE)
            && (o == Refuse(AncestryUnprovable) <==>
                  here && !item.trashed && item.mimeType != SHORTCUT_MIME_TYPE && |item.parents| != 1)
            && (o.Allow? || o == Refuse(OutsideSubtree) ==>
                  here && !item.trashed && item.mimeType != SHORTCUT_MIME_TYPE && |item.parents| == 1)
  {
    RunKeepsInv(scope, run, i);
    assert RequestInv(scope, run[i], run[i].requests[r]);
    LiveRefusalsExactly(run[i].requests[r].stage.item, scope.location);
    assert SHORTCUT_MIME_TYPE == "application/vnd.google-apps.shortcut";
  }

  // ---- While Drive stands still.

  ghost predicate StandsStill(w: World, drive: Drive) {
    forall t :: 0 <= t < |w.log| ==> w.log[t] == drive
  }

  /** An enumeration of an unchanging Drive sees exactly its listed folders. */
  lemma StillListing(scope: Scope, w: World, drive: Drive, g: nat)
    requires Inv(scope, w) && StandsStill(w, drive) && KeyedById(drive)
    requires g < |w.cache.completed|
    ensures Items(w.cache.completed[g].found.folders) == ListedFolders(drive)
  {
    var e := w.cache.completed[g];
    assert Witnessed(scope, w.log, e);
    var items := Items(e.found.folders);
    forall f | f in items
      ensures f in ListedFolders(drive)
    {
      var s :| s in e.found.folders && s.item == f;
      assert Seen(w.log, s, e.startedAt, e.finishedAt);
    }
    forall f | f in ListedFolders(drive)
      ensures f in items
    {
      assert forall t :: e.startedAt <= t <= e.finishedAt ==> Stands(w.log, f, t);
    }
  }

  /** While Drive stands still every decision is the verdict, whatever the time to live, the
      interleaving, the failures and the caching. */
  lemma StillDecisionsAreVerdicts(scope: Scope, run: seq<World>, i: nat, r: nat, drive: Drive)
    requires IsRun(scope, run) && i < |run| && IsDecided(run[i], r)
    requires StandsStill(run[i], drive) && KeyedById(drive)
    ensures IsVerdict(scope.rootId, scope.location, drive, run[i].requests[r].id, run[i].requests[r].stage.outcome)
  {
    RunKeepsInv(scope, run, i);
    var w, request := run[i], run[i].requests[r];
    assert RequestInv(scope, w, request);
    assert w.log[request.stage.readAt] == drive;
    if request.stage.lookup.Some? {
      var call := request.stage.lookup.value;
      assert MapProtocol.CallInv(scope.ttl, w.cache, call, w.cache.calls[call]);
      var g: nat :| MapProtocol.Justifies(scope.ttl, w.cache.completed, call, w.cache.calls[call], g);
      StillListing(scope, w, drive, g);
      assert Witnessed(scope, w.log, w.cache.completed[g]);
      MapGivesVerdict(scope.rootId, scope.location, drive, request.id, Found(w, call));
    }
  }

  /** So a cached scope and one that never caches decide alike, and give the same paths. */
  lemma CachedDecidesLikeUncached(
    rootId: string, location: DriveLocation, ttl: real, drive: Drive,
    cached: seq<World>, i: nat, r: nat, uncached: seq<World>, j: nat, q: nat)
    requires IsRun(Scope(rootId, location, ttl), cached) && i < |cached| && IsDecided(cached[i], r)
    requires IsRun(Scope(rootId, location, 0.0), uncached) && j < |uncached| && IsDecided(uncached[j], q)
    requires StandsStill(cached[i], drive) && StandsStill(uncached[j], drive) && KeyedById(drive)
    requires cached[i].requests[r].id == uncached[j].requests[q].id
    ensures cached[i].requests[r].stage.outcome == uncached[j].requests[q].stage.outcome
  {
    StillDecisionsAreVerdicts(Scope(rootId, location, ttl), cached, i, r, drive);
    StillDecisionsAreVerdicts(Scope(rootId, location, 0.0), uncached, j, q, drive);
    VerdictIsUnique(rootId, location, drive, cached[i].requests[r].id,
                    cached[i].requests[r].stage.outcome, uncached[j].requests[q].stage.outcome);
  }
}
