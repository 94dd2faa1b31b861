/** Proofs of membership across several scopes, in any interleaving of their tasks: direct
    calls of `authorize_document` and `download`, and whole calls of `read_document` with the
    cache they share.

    A proof is an object: what identifies it is which object it is, not what it holds.
    Anyone can make an object that looks like a proof; only issuing puts one on a scope's
    list, and a scope may forget a proof nobody holds any more. */
module ProofSteps {
  import opened Outcomes
  import opened DriveItems
  import opened Scope
  import opened Verdicts
  import Cursor
  import DocumentService

  type ScopeId = nat
  type ProofId = nat
  type ReadId = nat
  type Key = DocumentService.Key

  datatype Corpus = Corpus(rootId: string, location: DriveLocation)

  datatype Proof = Proof(item: DriveItem, relativePath: string)

  datatype Event =
    | Asked(scope: ScopeId, read: ReadId, fileId: string)
    | Failed(scope: ScopeId, read: ReadId)
    | Issued(scope: ScopeId, proof: ProofId)
    | Fetched(scope: ScopeId, proof: ProofId, fetch: Fetch)
    | Refused(scope: ScopeId, proof: ProofId)
    | Served(scope: ScopeId, read: ReadId, fileId: string, cached: bool)

  /** Where one call of `read_document` is. */
  datatype Stage =
    | Entered
    | Proven(proof: ProofId, issuedAt: nat)                 // the cursor is next
    | Decoded(proof: ProofId, issuedAt: nat)                // the cache is next
    | Missed(proof: ProofId, issuedAt: nat)                 // the download is next
    | Loaded(proof: ProofId, issuedAt: nat)                 // the parser is next
    | Ready(proof: ProofId, issuedAt: nat, cached: bool)    // has a document
    | Over

  datatype Read = Read(scope: ScopeId, fileId: string, cursor: Option<string>, askedAt: nat, stage: Stage)

  datatype State = State(
    corpora: map<ScopeId, Corpus>,
    objects: map<ProofId, Proof>,
    issued: map<ScopeId, set<ProofId>>,
    caches: map<ScopeId, set<Key>>,
    calls: map<ReadId, Read>,
    log: seq<Event>)

  /** `item` and `paths` are what Drive and the folder map answered; the flags are what the
      MIME table, the parser and the extracted text turned out to be. */
  datatype Step =
    | Forge(proof: ProofId, content: Proof)
    | Issue(scope: ScopeId, item: DriveItem, paths: map<string, string>, proof: ProofId)
    | Forget(scope: ScopeId, proof: ProofId)
    | Download(scope: ScopeId, proof: ProofId, exportMimeType: Option<string>)
    | Ask(read: ReadId, scope: ScopeId, fileId: string, cursor: Option<string>)
    | Authorize(read: ReadId, item: DriveItem, paths: map<string, string>, proof: ProofId)
    | Decode(read: ReadId, planned: bool)
    | Look(read: ReadId)
    | Fetch(read: ReadId, exportMimeType: Option<string>)
    | Parse(read: ReadId, parsed: bool)
    | Evict(scope: ScopeId, key: Key)
    | Serve(read: ReadId, readable: bool)
    | Fail(read: ReadId)

  /** What `authorize_document` makes of the answers: a path, or a refusal. The root is a
      folder, or refused before that is looked at. */
  function Decision(corpus: Corpus, item: DriveItem, paths: map<string, string>): Option<string> {
    if item.id == corpus.rootId || LiveOutcome(item, corpus.location).Some? then None
    else match MapOutcome(item, paths)
      case Refuse(_) => None
      case Allow(_, path) => if IsFolder(item) || !item.canDownload then None else Some(path)
  }

  /** A path is given exactly for a readable document of the location with one parent, which
      the map has, that is not the root; and it is the path below that parent. */
  lemma DecisionExactly(corpus: Corpus, item: DriveItem, paths: map<string, string>, path: string)
    ensures Decision(corpus, item, paths) == Some(path) <==>
            && item.id != corpus.rootId
            && corpus.location.Contains(item.driveId) && !item.trashed && item.canDownload
            && item.mimeType != FOLDER_MIME_TYPE && item.mimeType != SHORTCUT_MIME_TYPE
            && |item.parents| == 1 && item.parents[0] in paths
            && path == (if paths[item.parents[0]] == "." then item.name else paths[item.parents[0]] + "/" + item.name)
  {
  }

  function StageOf(s: State, read: ReadId): Stage {
    if read in s.calls then s.calls[read].stage else Over
  }

  /** The call is at a stage where it holds a proof object. */
  predicate HasProof(at: Stage) {
    !at.Entered? && !at.Over?
  }

  predicate Holds(s: State, at: Stage) {
    HasProof(at) && at.proof in s.objects
  }

  predicate Enabled(s: State, step: Step) {
    match step
    case Forge(proof, _) => proof !in s.objects
    case Issue(scope, _, _, proof) => scope in s.corpora && proof !in s.objects
    case Forget(scope, _) => scope in s.issued
    case Download(_, proof, _) => proof in s.objects
    case Ask(read, scope, _, _) => read !in s.calls && scope in s.corpora
    case Authorize(read, item, _, proof) =>
      && StageOf(s, read).Entered? && s.calls[read].scope in s.corpora
      && item.id == s.calls[read].fileId && proof !in s.objects
    case Decode(read, _) => StageOf(s, read).Proven?
    case Look(read) => StageOf(s, read).Decoded? && Holds(s, StageOf(s, read))
    case Fetch(read, _) => StageOf(s, read).Missed? && Holds(s, StageOf(s, read))
    case Parse(read, _) => StageOf(s, read).Loaded? && Holds(s, StageOf(s, read))
    case Evict(scope, _) => scope in s.caches
    case Serve(read, _) => StageOf(s, read).Ready?
    case Fail(read) => !StageOf(s, read).Over?
  }

  function IssuedBy(s: State, scope: ScopeId): set<ProofId> {
    if scope in s.issued then s.issued[scope] else {}
  }

  function CacheOf(s: State, scope: ScopeId): set<Key> {
    if scope in s.caches then s.caches[scope] else {}
  }

  function KeyOf(s: State, proof: ProofId): Key
    requires proof in s.objects
  {
    DocumentService.KeyOf(s.objects[proof].item)
  }

  function FetchFor(content: Proof, exportMimeType: Option<string>): Fetch {
    match exportMimeType
    case None => Fetch.Download(content.item.id)
    case Some(mimeType) => Export(content.item.id, mimeType)
  }

  function WithProof(s: State, scope: ScopeId, proof: ProofId, content: Proof): State {
    s.(objects := s.objects[proof := content],
       issued := s.issued[scope := IssuedBy(s, scope) + {proof}],
       log := s.log + [Issued(scope, proof)])
  }

  /** What `download` does with an object, known or not. */
  function Downloaded(s: State, scope: ScopeId, proof: ProofId, exportMimeType: Option<string>): Event
    requires proof in s.objects
  {
    if proof in IssuedBy(s, scope) then Fetched(scope, proof, FetchFor(s.objects[proof], exportMimeType))
    else Refused(scope, proof)
  }

  function Move(s: State, read: ReadId, at: Stage): State
    requires read in s.calls
  {
    s.(calls := s.calls[read := s.calls[read].(stage := at)])
  }

  function Logged(s: State, e: Event): State {
    s.(log := s.log + [e])
  }

  function Ends(s: State, read: ReadId): State
    requires read in s.calls
  {
    Logged(Move(s, read, Over), Failed(s.calls[read].scope, read))
  }

  predicate IsOfCall(step: Step) {
    step.Authorize? || step.Decode? || step.Look? || step.Fetch? || step.Parse? || step.Serve? || step.Fail?
  }

  /** The steps of one call of `read_document`. */
  function Advance(s: State, step: Step): State
    requires Enabled(s, step) && IsOfCall(step)
  {
    var call := s.calls[step.read];
    match step
    case Authorize(read, item, paths, proof) =>
      (match Decision(s.corpora[call.scope], item, paths)
       case None => Ends(s, read)
       case Some(path) => Move(WithProof(s, call.scope, proof, Proof(item, path)), read, Proven(proof, |s.log|)))
    case Decode(read, planned) =>
      if Cursor.DecodeCursor(call.cursor).Ok? && planned
      then Move(s, read, Decoded(call.stage.proof, call.stage.issuedAt))
      else Ends(s, read)
    case Look(read) =>
      if KeyOf(s, call.stage.proof) in CacheOf(s, call.scope)
      then Move(s, read, Ready(call.stage.proof, call.stage.issuedAt, true))
      else Move(s, read, Missed(call.stage.proof, call.stage.issuedAt))
    case Fetch(read, exportMimeType) =>
      var e := Downloaded(s, call.scope, call.stage.proof, exportMimeType);
      if e.Fetched? then Logged(Move(s, read, Loaded(call.stage.proof, call.stage.issuedAt)), e)
      else Logged(Move(s, read, Over), e)
    case Parse(read, parsed) =>
      if parsed then
        Move(s.(caches := s.caches[call.scope := CacheOf(s, call.scope) + {KeyOf(s, call.stage.proof)}]),
             read, Ready(call.stage.proof, call.stage.issuedAt, false))
      else Ends(s, read)
    case Serve(read, readable) =>
      if readable then Logged(Move(s, read, Over), Served(call.scope, read, call.fileId, call.stage.cached))
      else Ends(s, read)
    case Fail(read) => Ends(s, read)
  }

  function Apply(s: State, step: Step): State
    requires Enabled(s, step)
  {
    match step
    case Forge(proof, content) => s.(objects := s.objects[proof := content])
    case Issue(scope, item, paths, proof) =>
      (match Decision(s.corpora[scope], item, paths)
       case None => s
       case Some(path) => WithProof(s, scope, proof, Proof(item, path)))
    case Forget(scope, proof) => s.(issued := s.issued[scope := s.issued[scope] - {proof}])
    case Download(scope, proof, exportMimeType) => Logged(s, Downloaded(s, scope, proof, exportMimeType))
    case Ask(read, scope, fileId, cursor) =>
      Logged(s.(calls := s.calls[read := Read(scope, fileId, cursor, |s.log|, Entered)]), Asked(scope, read, fileId))
    case Evict(scope, key) => s.(caches := s.caches[scope := s.caches[scope] - {key}])
    case _ => Advance(s, step)
  }

  ghost predicate Init(s: State) {
    s.objects == map[] && s.issued == map[] && s.caches == map[] && s.calls == map[] && s.log == []
  }

  // ---- Runs.

  ghost predicate Follows(s: State, s': State) {
    exists step :: Enabled(s, step) && s' == Apply(s, step)
  }

  ghost predicate IsRun(run: seq<State>) {
    run != [] && Init(run[0]) && forall i :: 0 <= i < |run| - 1 ==> Follows(run[i], run[i + 1])
  }

  // ---- A run that uses all of it.

  lemma Extend(run: seq<State>, s: State, step: Step) returns (run': seq<State>, s': State)
    requires IsRun(run) && run[|run| - 1] == s && Enabled(s, step)
    ensures IsRun(run') && run'[|run'| - 1] == s' && s' == Apply(s, step)
  {
    s' := Apply(s, step);
    run' := run + [s'];
    assert Follows(s, s');
  }

  /** A first read of a document: proven, missed, fetched, parsed and served. */
  lemma FirstRead(corpus: Corpus, item: DriveItem, paths: map<string, string>, path: string)
    returns (run: seq<State>, s: State)
    requires Decision(corpus, item, paths) == Some(path)
    ensures IsRun(run) && run[|run| - 1] == s
    ensures s == State(
                   map[0 := corpus], map[0 := Proof(item, path)], map[0 := {0}], map[0 := {DocumentService.KeyOf(item)}],
                   map[0 := Read(0, item.id, None, 0, Over)],
                   [Asked(0, 0, item.id), Issued(0, 0), Fetched(0, 0, Fetch.Download(item.id)), Served(0, 0, item.id, false)])
  {
    run, s := FirstMiss(corpus, item, paths, path);
    run, s := Extend(run, s, Step.Fetch(0, None));
    run, s := Extend(run, s, Parse(0, true));
    assert {} + {DocumentService.KeyOf(item)} == {DocumentService.KeyOf(item)};
    assert s.caches == map[0 := {DocumentService.KeyOf(item)}];
    run, s := Extend(run, s, Serve(0, true));
    assert s.calls == map[0 := Read(0, item.id, None, 0, Over)];
  }

  lemma FirstMiss(corpus: Corpus, item: DriveItem, paths: map<string, string>, path: string)
    returns (run: seq<State>, s: State)
    requires Decision(corpus, item, paths) == Some(path)
    ensures IsRun(run) && run[|run| - 1] == s
    ensures s == State(
                   map[0 := corpus], map[0 := Proof(item, path)], map[0 := {0}], map[],
                   map[0 := Read(0, item.id, None, 0, Missed(0, 1))], [Asked(0, 0, item.id), Issued(0, 0)])
  {
    s := State(map[0 := corpus], map[], map[], map[], map[], []);
    run := [s];
    run, s := Extend(run, s, Ask(0, 0, item.id, None));
    run, s := Extend(run, s, Authorize(0, item, paths, 0));
    assert s.objects == map[0 := Proof(item, path)];
    assert {} + {0} == {0} && s.issued == map[0 := {0}];
    run, s := Extend(run, s, Decode(0, true));
    run, s := Extend(run, s, Look(0));
    assert s.calls == map[0 := Read(0, item.id, None, 0, Missed(0, 1))];
  }

  /** The next read of the same version is served from the cache: with a proof of its own, and
      without a second fetch. */
  lemma CachedReadIsServed(corpus: Corpus, item: DriveItem, paths: map<string, string>, path: string)
    returns (run: seq<State>, s: State)
    requires Decision(corpus, item, paths) == Some(path)
    ensures IsRun(run) && run[|run| - 1] == s
    ensures s.log == [Asked(0, 0, item.id), Issued(0, 0), Fetched(0, 0, Fetch.Download(item.id)), Served(0, 0, item.id, false),
                      Asked(0, 1, item.id), Issued(0, 1), Served(0, 1, item.id, true)]
  {
    run, s := FirstRead(corpus, item, paths, path);
    run, s := Extend(run, s, Ask(1, 0, item.id, None));
    run, s := Extend(run, s, Authorize(1, item, paths, 1));
    run, s := Extend(run, s, Decode(1, true));
    run, s := Extend(run, s, Look(1));
    run, s := Extend(run, s, Serve(1, true));
  }
}
