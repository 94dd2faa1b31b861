/** What holds in every run of `ProofSteps`: no fetch and no answer without a proof. */
module ProofRuns {
  import opened DriveItems
  import opened Outcomes
  import opened Scope
  import opened Verdicts
  import opened ProofSteps

  // ---- What every reachable state satisfies.

  /** The scope issued this very object at step `j` of the log, for a readable document in its
      location that is not its root. */
  ghost predicate IssuedAt(s: State, scope: ScopeId, proof: ProofId, j: nat) {
    && j < |s.log| && s.log[j] == Issued(scope, proof)
    && proof in s.objects && scope in s.corpora
    && !s.objects[proof].item.trashed && s.objects[proof].item.canDownload
    && s.objects[proof].item.mimeType != FOLDER_MIME_TYPE && s.objects[proof].item.mimeType != SHORTCUT_MIME_TYPE
    && s.objects[proof].item.id != s.corpora[scope].rootId
    && s.corpora[scope].location.Contains(s.objects[proof].item.driveId)
    && |s.objects[proof].item.parents| == 1
  }

  ghost predicate IssuedBefore(s: State, scope: ScopeId, proof: ProofId, k: nat) {
    exists j: nat :: j < k && IssuedAt(s, scope, proof, j)
  }

  /** The scope fetched this version, with a proof, before step `k`. */
  ghost predicate FetchedBefore(s: State, scope: ScopeId, key: Key, k: nat) {
    exists m: nat :: m < k && FetchedAt(s, scope, key, m)
  }

  ghost predicate FetchedAt(s: State, scope: ScopeId, key: Key, m: nat) {
    && m < |s.log| && s.log[m].Fetched? && s.log[m].scope == scope
    && s.log[m].proof in s.objects && KeyOf(s, s.log[m].proof) == key
  }

  /** An answer at step `k` follows its own call, and, after that, a proof for that document
      issued by its own scope; and what it serves was fetched by that scope. */
  ghost predicate ServedProperly(s: State, k: nat, a: nat, j: nat, proof: ProofId)
    requires k < |s.log| && s.log[k].Served?
  {
    var e := s.log[k];
    && a < j < k && s.log[a] == Asked(e.scope, e.read, e.fileId)
    && IssuedAt(s, e.scope, proof, j) && s.objects[proof].item.id == e.fileId
    && FetchedBefore(s, e.scope, KeyOf(s, proof), k)
  }

  ghost predicate EventIsJustified(s: State, k: nat)
    requires k < |s.log|
  {
    match s.log[k]
    case Fetched(scope, proof, fetch) =>
      && IssuedBefore(s, scope, proof, k)
      && (fetch == Fetch.Download(s.objects[proof].item.id)
          || (fetch.Export? && fetch.id == s.objects[proof].item.id))
    case Served(_, _, _, _) => exists a, j, proof :: ServedProperly(s, k, a, j, proof)
    case _ => true
  }

  ghost predicate CallInv(s: State, read: ReadId, call: Read) {
    && call.askedAt < |s.log| && s.log[call.askedAt] == Asked(call.scope, read, call.fileId)
    && (HasProof(call.stage) ==>
          && call.askedAt < call.stage.issuedAt
          && IssuedAt(s, call.scope, call.stage.proof, call.stage.issuedAt)
          && s.objects[call.stage.proof].item.id == call.fileId
          && (call.stage.Loaded? || call.stage.Ready? ==>
                FetchedBefore(s, call.scope, KeyOf(s, call.stage.proof), |s.log|)))
  }

  ghost predicate ListsInv(s: State) {
    forall scope, proof :: proof in IssuedBy(s, scope) ==> IssuedBefore(s, scope, proof, |s.log|)
  }

  ghost predicate CachesInv(s: State) {
    forall scope, key :: key in CacheOf(s, scope) ==> FetchedBefore(s, scope, key, |s.log|)
  }

  ghost predicate CallsInv(s: State) {
    forall read :: read in s.calls ==> CallInv(s, read, s.calls[read])
  }

  ghost predicate LogInv(s: State) {
    forall k {:trigger EventIsJustified(s, k)} :: 0 <= k < |s.log| ==> EventIsJustified(s, k)
  }

  /** No object is issued twice, and no call is made twice. */
  ghost predicate OnceInv(s: State) {
    && (forall j, k :: 0 <= j < k < |s.log| && s.log[j].Issued? && s.log[k].Issued? ==> s.log[j].proof != s.log[k].proof)
    && (forall k :: 0 <= k < |s.log| && s.log[k].Issued? ==> s.log[k].proof in s.objects)
    && (forall j, k :: 0 <= j < k < |s.log| && s.log[j].Asked? && s.log[k].Asked? ==> s.log[j].read != s.log[k].read)
    && (forall k :: 0 <= k < |s.log| && s.log[k].Asked? ==> s.log[k].read in s.calls)
  }

  ghost predicate Inv(s: State) {
    ListsInv(s) && CachesInv(s) && CallsInv(s) && LogInv(s) && OnceInv(s)
  }

  /** Objects keep what they hold, calls stay, and the log only grows, by one event at most. */
  ghost predicate Extends(s: State, s': State) {
    && s'.corpora == s.corpora
    && s.log <= s'.log && |s'.log| <= |s.log| + 1
    && (forall p :: p in s.objects ==> p in s'.objects && s'.objects[p] == s.objects[p])
    && (forall r :: r in s.calls ==> r in s'.calls)
  }

  lemma StepExtends(s: State, step: Step)
    requires Enabled(s, step)
    ensures Extends(s, Apply(s, step))
  {
    if IsOfCall(step) {
      AdvanceExtends(s, step);
    }
  }

  lemma AdvanceExtends(s: State, step: Step)
    requires Enabled(s, step) && IsOfCall(step)
    ensures Extends(s, Advance(s, step))
  {
    if step.Authorize? {
      AuthorizeExtends(s, step);
    }
  }

  lemma AuthorizeExtends(s: State, step: Step)
    requires Enabled(s, step) && step.Authorize?
    ensures Extends(s, Advance(s, step))
  {
  }

  lemma IssuedStays(s: State, s': State, scope: ScopeId, proof: ProofId, k: nat)
    requires Extends(s, s') && IssuedBefore(s, scope, proof, k)
    ensures IssuedBefore(s', scope, proof, k)
  {
    var j: nat :| j < k && IssuedAt(s, scope, proof, j);
    assert IssuedAt(s', scope, proof, j);
  }

  lemma FetchedStays(s: State, s': State, scope: ScopeId, key: Key, k: nat, k': nat)
    requires Extends(s, s') && FetchedBefore(s, scope, key, k) && k <= k'
    ensures FetchedBefore(s', scope, key, k')
  {
    var m: nat :| m < k && FetchedAt(s, scope, key, m);
    assert FetchedAt(s', scope, key, m);
  }

  lemma JustifiedStays(s: State, s': State, k: nat)
    requires Extends(s, s') && k < |s.log| && EventIsJustified(s, k)
    ensures EventIsJustified(s', k)
  {
    var e := s.log[k];
    if e.Fetched? {
      IssuedStays(s, s', e.scope, e.proof, k);
    } else if e.Served? {
      var a, j, proof :| ServedProperly(s, k, a, j, proof);
      FetchedStays(s, s', e.scope, KeyOf(s, proof), k, k);
      assert ServedProperly(s', k, a, j, proof);
    }
  }

  lemma CallStays(s: State, s': State, read: ReadId, call: Read)
    requires Extends(s, s') && CallInv(s, read, call)
    ensures CallInv(s', read, call)
  {
    if call.stage.Loaded? || call.stage.Ready? {
      FetchedStays(s, s', call.scope, KeyOf(s, call.stage.proof), |s.log|, |s'.log|);
    }
  }

  // ---- Each part of the invariant, step by step.

  /** What a step puts on lists and into caches. */
  lemma ListsMove(s: State, step: Step)
    requires Enabled(s, step)
    ensures var s' := Apply(s, step);
            && (forall scope, proof :: proof in IssuedBy(s', scope) ==>
                  proof in IssuedBy(s, scope) || IssuedAt(s', scope, proof, |s.log|))
            && (forall scope, key :: key in CacheOf(s', scope) ==>
                  || key in CacheOf(s, scope)
                  || (step.Parse? && scope == s.calls[step.read].scope && key == KeyOf(s, s.calls[step.read].stage.proof)))
  {
  }

  lemma ListsKept(s: State, step: Step)
    requires Inv(s) && Enabled(s, step)
    ensures ListsInv(Apply(s, step)) && CachesInv(Apply(s, step))
  {
    var s' := Apply(s, step);
    StepExtends(s, step);
    ListsMove(s, step);
    assert step.Parse? ==> CallInv(s, step.read, s.calls[step.read]);
    ListsStay(s, s', if step.Parse? then Some(step.read) else None);
  }

  lemma ListsStay(s: State, s': State, parsed: Option<ReadId>)
    requires ListsInv(s) && CachesInv(s) && Extends(s, s')
    requires parsed.Some? ==>
               && parsed.value in s.calls && CallInv(s, parsed.value, s.calls[parsed.value])
               && s.calls[parsed.value].stage.Loaded?
    requires forall scope, proof :: proof in IssuedBy(s', scope) ==>
               proof in IssuedBy(s, scope) || IssuedAt(s', scope, proof, |s.log|)
    requires forall scope, key :: key in CacheOf(s', scope) ==>
               || key in CacheOf(s, scope)
               || (parsed.Some? && scope == s.calls[parsed.value].scope && key == KeyOf(s, s.calls[parsed.value].stage.proof))
    ensures ListsInv(s') && CachesInv(s')
  {
    forall scope, proof | proof in IssuedBy(s', scope)
      ensures IssuedBefore(s', scope, proof, |s'.log|)
    {
      if proof in IssuedBy(s, scope) {
        IssuedStays(s, s', scope, proof, |s.log|);
      }
    }
    forall scope, key | key in CacheOf(s', scope)
      ensures FetchedBefore(s', scope, key, |s'.log|)
    {
      FetchedStays(s, s', scope, key, |s.log|, |s'.log|);
    }
  }

  /** Which calls a step touches. */
  lemma CallsMove(s: State, step: Step)
    requires Enabled(s, step)
    ensures var s' := Apply(s, step);
            && (forall read :: read in s'.calls ==>
                  || (read in s.calls && s'.calls[read] == s.calls[read])
                  || (step.Ask? && read == step.read)
                  || (IsOfCall(step) && read == step.read))
            && (step.Ask? ==> CallInv(s', step.read, s'.calls[step.read]))
  {
  }

  lemma CallsKept(s: State, step: Step)
    requires Inv(s) && Enabled(s, step)
    ensures CallsInv(Apply(s, step))
  {
    var s' := Apply(s, step);
    StepExtends(s, step);
    CallsMove(s, step);
    forall read | read in s'.calls
      ensures CallInv(s', read, s'.calls[read])
    {
      if IsOfCall(step) && read == step.read {
        if step.Authorize? {
          AuthorizeEarns(s, step);
        } else if step.Fetch? {
          FetchEarns(s, step);
        } else {
          OthersEarn(s, step);
        }
        EarnedKeepsInv(s, s', read, s.calls[read], s'.calls[read]);
      } else if !(step.Ask? && read == step.read) {
        CallStays(s, s', read, s.calls[read]);
      }
    }
  }

  /** What became of the call itself: it is over, or its next stage is earned. */
  ghost predicate IsEarned(s: State, s': State, read: ReadId, before: Read, after: Read) {
    && after == before.(stage := after.stage)
    && (HasProof(after.stage) ==>
          if before.stage.Entered? then
            && after.stage.Proven? && after.stage.issuedAt == |s.log|
            && IssuedAt(s', before.scope, after.stage.proof, |s.log|)
            && s'.objects[after.stage.proof].item.id == before.fileId
          else
            && HasProof(before.stage) && Holds(s, before.stage)
            && after.stage.proof == before.stage.proof && after.stage.issuedAt == before.stage.issuedAt
            && (after.stage.Loaded? || after.stage.Ready? ==>
                  || before.stage.Loaded? || before.stage.Ready?
                  || KeyOf(s, before.stage.proof) in CacheOf(s, before.scope)
                  || FetchedAt(s', before.scope, KeyOf(s, before.stage.proof), |s.log|)))
  }

  lemma AuthorizeEarns(s: State, step: Step)
    requires Inv(s) && Enabled(s, step) && step.Authorize?
    ensures IsEarned(s, Apply(s, step), step.read, s.calls[step.read], Apply(s, step).calls[step.read])
  {
  }

  lemma FetchEarns(s: State, step: Step)
    requires Inv(s) && Enabled(s, step) && step.Fetch?
    ensures IsEarned(s, Apply(s, step), step.read, s.calls[step.read], Apply(s, step).calls[step.read])
  {
  }

  lemma OthersEarn(s: State, step: Step)
    requires Inv(s) && Enabled(s, step) && IsOfCall(step) && !step.Authorize? && !step.Fetch?
    ensures IsEarned(s, Apply(s, step), step.read, s.calls[step.read], Apply(s, step).calls[step.read])
  {
    assert CallInv(s, step.read, s.calls[step.read]);
  }

  lemma EarnedKeepsInv(s: State, s': State, read: ReadId, before: Read, after: Read)
    requires Extends(s, s') && CallInv(s, read, before) && CachesInv(s)
    requires IsEarned(s, s', read, before, after)
    ensures CallInv(s', read, after)
  {
    CallStays(s, s', read, before);
    if HasProof(after.stage) && !before.stage.Entered? && (after.stage.Loaded? || after.stage.Ready?) {
      var key := KeyOf(s, before.stage.proof);
      if key in CacheOf(s, before.scope) {
        FetchedStays(s, s', before.scope, key, |s.log|, |s'.log|);
      }
    }
  }

  /** What a step adds to the log. */
  ghost predicate IsNews(s: State, s': State, e: Event) {
    match e
    case Asked(_, read, _) => read !in s.calls && read in s'.calls
    case Issued(_, proof) => proof !in s.objects && proof in s'.objects
    case Fetched(scope, proof, fetch) =>
      && proof in IssuedBy(s, scope) && proof in s.objects
      && (fetch == Fetch.Download(s.objects[proof].item.id)
          || (fetch.Export? && fetch.id == s.objects[proof].item.id))
    case Served(scope, read, fileId, _) =>
      read in s.calls && s.calls[read].stage.Ready? && s.calls[read].scope == scope && s.calls[read].fileId == fileId
    case _ => true
  }

  lemma LogMoves(s: State, step: Step)
    requires Enabled(s, step)
    ensures AddsNews(s, Apply(s, step))
  {
    if step.Fetch? {
      FetchLogs(s, step);
    } else if IsOfCall(step) {
      AdvanceLogs(s, step);
    }
  }

  ghost predicate AddsNews(s: State, s': State) {
    |s'.log| > |s.log| ==> IsNews(s, s', s'.log[|s.log|])
  }

  lemma FetchLogs(s: State, step: Step)
    requires Enabled(s, step) && step.Fetch?
    ensures AddsNews(s, Advance(s, step))
  {
  }

  lemma AdvanceLogs(s: State, step: Step)
    requires Enabled(s, step) && IsOfCall(step) && !step.Fetch?
    ensures AddsNews(s, Advance(s, step))
  {
  }

  lemma LogKept(s: State, step: Step)
    requires Inv(s) && Enabled(s, step)
    ensures LogInv(Apply(s, step)) && OnceInv(Apply(s, step))
  {
    StepExtends(s, step);
    LogMoves(s, step);
    LogStays(s, Apply(s, step));
    OnceStays(s, Apply(s, step));
  }

  lemma LogStays(s: State, s': State)
    requires Inv(s) && Extends(s, s') && AddsNews(s, s')
    ensures LogInv(s')
  {
    forall k | 0 <= k < |s'.log|
      ensures EventIsJustified(s', k)
    {
      if k < |s.log| {
        JustifiedStays(s, s', k);
      } else {
        NewsIsJustified(s, s');
      }
    }
  }

  lemma NewsIsJustified(s: State, s': State)
    requires Inv(s) && Extends(s, s') && |s'.log| > |s.log| && IsNews(s, s', s'.log[|s.log|])
    ensures EventIsJustified(s', |s.log|)
  {
    var k, e := |s.log|, s'.log[|s.log|];
    if e.Fetched? {
      IssuedStays(s, s', e.scope, e.proof, k);
    } else if e.Served? {
      var call := s.calls[e.read];
      assert CallInv(s, e.read, call);
      FetchedStays(s, s', call.scope, KeyOf(s, call.stage.proof), k, k);
      assert ServedProperly(s', k, call.askedAt, call.stage.issuedAt, call.stage.proof);
    }
  }

  lemma OnceStays(s: State, s': State)
    requires OnceInv(s) && Extends(s, s') && AddsNews(s, s')
    ensures OnceInv(s')
  {
    assert forall k :: 0 <= k < |s.log| ==> s'.log[k] == s.log[k];
  }

  lemma StepKeepsInv(s: State, step: Step)
    requires Inv(s) && Enabled(s, step)
    ensures Inv(Apply(s, step))
  {
    ListsKept(s, step);
    CallsKept(s, step);
    LogKept(s, step);
  }

  lemma {:induction false} RunKeepsInv(run: seq<State>, i: nat)
    requires IsRun(run) && i < |run|
    ensures Inv(run[i])
  {
    if i > 0 {
      RunKeepsInv(run, i - 1);
      assert Follows(run[i - 1], run[i - 1 + 1]);
      var step :| Enabled(run[i - 1], step) && run[i] == Apply(run[i - 1], step);
      StepKeepsInv(run[i - 1], step);
    }
  }

  /** Every fetch a scope makes was preceded by that scope, and no other, issuing the very
      object it was made with, for a readable document in its location; and it fetches that
      document and nothing else. */
  lemma FetchesFollowProofs(run: seq<State>, i: nat, k: nat) returns (j: nat)
    requires IsRun(run) && i < |run| && k < |run[i].log| && run[i].log[k].Fetched?
    ensures var s, e := run[i], run[i].log[k];
            && j < k && IssuedAt(s, e.scope, e.proof, j)
            && e.fetch.id == s.objects[e.proof].item.id
            && forall scope, l: nat :: IssuedAt(s, scope, e.proof, l) ==> scope == e.scope && l == j
  {
    RunKeepsInv(run, i);
    var s, e := run[i], run[i].log[k];
    assert EventIsJustified(s, k);
    j :| j < k && IssuedAt(s, e.scope, e.proof, j);
  }

  /** Every document served, from the cache or not, follows its own call, made once, and,
      strictly between the two, a proof for that very document issued by its own scope; and
      the version served was fetched by that scope before. */
  lemma ServedFollowsProof(run: seq<State>, i: nat, k: nat) returns (a: nat, j: nat, proof: ProofId)
    requires IsRun(run) && i < |run| && k < |run[i].log| && run[i].log[k].Served?
    ensures ServedProperly(run[i], k, a, j, proof)
    ensures forall b :: 0 <= b < |run[i].log| && run[i].log[b].Asked? && run[i].log[b].read == run[i].log[k].read ==> b == a
  {
    RunKeepsInv(run, i);
    assert EventIsJustified(run[i], k);
    a, j, proof :| ServedProperly(run[i], k, a, j, proof);
  }
}
