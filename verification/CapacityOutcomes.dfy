/**
 What a sync and a restore of the capacity catalogue do, said from the rows alone: which calls are accepted, which rows
 they leave, and that a source's versions never fall and each stands for one set of rows.
 */
module CapacityOutcomes {
  import opened Text
  import opened Capacity

  // ---------------------------------------------------------------- which sync is accepted

  /** The catalogue is older than what is stored for its source. */
  predicate IsOlder(p: Projection, c: Catalog) {
    c.source in p.sources && c.version < p.sources[c.source].version
  }

  /** It has the stored version under another hash. */
  predicate IsRewritten(p: Projection, c: Catalog) {
    c.source in p.sources && c.version == p.sources[c.source].version && c.hash != p.sources[c.source].hash
  }

  predicate IsStored(p: Projection, c: Catalog) {
    c.source in p.sources && c.version == p.sources[c.source].version && c.hash == p.sources[c.source].hash
  }

  predicate Lists(c: Catalog, a: AgentId) {
    exists i :: 0 <= i < |c.policies| && c.policies[i].agent == a
  }

  /** Every agent concerned has a binding, no listed one belongs to another source, no enabled one is left without. */
  predicate Covers(p: Projection, bindings: Bindings, c: Catalog) {
    && (forall a | a in p.policies :: a in bindings)
    && (forall i | 0 <= i < |c.policies| :: c.policies[i].agent in bindings)
    && (forall i | 0 <= i < |c.policies| && c.policies[i].agent in p.policies ::
          p.policies[c.policies[i].agent].source == c.source)
    && (forall a | a in bindings && bindings[a] ::
          Lists(c, a) || (a in p.policies && p.policies[a].source != c.source))
  }

  /** A policy of the catalogue has this content. */
  predicate ListsId(c: Catalog, pid: PolicyId) {
    exists i :: 0 <= i < |c.policies|
                && pid == PolicyId(c.policies[i].agent, c.hash, c.policies[i].limit, c.source, c.version)
  }

  /** Every policy of the source that an active lease uses stands in the catalogue with the same content. */
  predicate SparesActive(p: Projection, activeIds: set<PolicyId>, c: Catalog) {
    forall a | a in p.policies && p.policies[a].source == c.source && p.policies[a].id in activeIds ::
      ListsId(c, p.policies[a].id)
  }

  predicate Acceptable(p: Projection, bindings: Bindings, call: SyncCall) {
    && !IsOlder(p, call.catalog) && !IsRewritten(p, call.catalog) && Covers(p, bindings, call.catalog)
    && (IsStored(p, call.catalog)
        || (SparesActive(p, call.activeIds, call.catalog) && Insertable(call.catalog.policies)))
  }

  lemma SparesExactly(p: Projection, activeIds: set<PolicyId>, c: Catalog)
    ensures SparesActive(p, activeIds, c) <==> (OldIds(p.policies, c.source) - NewIds(c)) * activeIds == {}
  {
    if SparesActive(p, activeIds, c) {
      forall pid | pid in OldIds(p.policies, c.source) && pid in activeIds
        ensures pid in NewIds(c)
      {
        var a :| a in p.policies && p.policies[a].source == c.source && p.policies[a].id == pid;
        assert ListsId(c, pid);
        var i :| 0 <= i < |c.policies|
          && pid == PolicyId(c.policies[i].agent, c.hash, c.policies[i].limit, c.source, c.version);
        assert IdOf(c, c.policies[i]) == pid;
      }
    }
    if (OldIds(p.policies, c.source) - NewIds(c)) * activeIds == {} {
      forall a | a in p.policies && p.policies[a].source == c.source && p.policies[a].id in activeIds
        ensures ListsId(c, p.policies[a].id)
      {
        var pid := p.policies[a].id;
        assert pid in OldIds(p.policies, c.source);
        assert pid !in (OldIds(p.policies, c.source) - NewIds(c)) * activeIds;
        var i :| 0 <= i < |c.policies| && IdOf(c, c.policies[i]) == pid;
      }
    }
  }

  lemma CoversExactly(p: Projection, bindings: Bindings, c: Catalog)
    ensures var agents := CatalogAgents(c.policies);
            Covers(p, bindings, c) <==>
              && agents + p.policies.Keys <= bindings.Keys
              && !(exists a :: a in agents && a in p.policies && p.policies[a].source != c.source)
              && !(exists a :: a in bindings && bindings[a] && a !in agents && a !in NotOwnedBy(p.policies, c.source))
  {
    var agents := CatalogAgents(c.policies);
    assert forall a :: a in agents <==> Lists(c, a);
    assert forall i | 0 <= i < |c.policies| :: c.policies[i].agent in agents;
  }

  /**
   A sync is accepted exactly if the rows allow it; an older catalogue and a rewritten version have their own answers.
   */
  lemma SyncAccepted(p: Projection, bindings: Bindings, call: SyncCall)
    ensures SyncBy(p, bindings, call).Ok? <==> Acceptable(p, bindings, call)
    ensures SyncBy(p, bindings, call) == Err(Downgrade) <==> IsOlder(p, call.catalog)
    ensures SyncBy(p, bindings, call) == Err(HashWithoutBump) <==> IsRewritten(p, call.catalog)
  {
    CoversExactly(p, bindings, call.catalog);
    SparesExactly(p, call.activeIds, call.catalog);
    hide Covers, SparesActive, Insertable, OldIds, NewIds, NotOwnedBy, CatalogAgents;
  }

  /** The rows an accepted sync of something new leaves. */
  predicate Installs(p: Projection, q: Projection, call: SyncCall) {
    var c := call.catalog;
    && q.sources == p.sources[c.source := SourceRow(c.version, c.hash,
                                                    if call.path.GetOr("") != "" then call.path else c.path, call.now)]
    && (forall a | a in q.policies :: Lists(c, a) || (a in p.policies && p.policies[a].source != c.source))
    && (forall a | a in p.policies && p.policies[a].source != c.source ::
        a in q.policies && q.policies[a] == p.policies[a])
    && (forall i | 0 <= i < |c.policies| ::
          && c.policies[i].agent in q.policies
          && q.policies[c.policies[i].agent] ==
               PolicyRow(c.source, c.version, c.hash,
                         PolicyId(c.policies[i].agent, c.hash, c.policies[i].limit, c.source, c.version),
                         c.policies[i].limit, call.now, call.now))
  }

  /** An accepted sync of the stored version changes nothing; any other leaves exactly the catalogue's rows. */
  lemma SyncLeaves(p: Projection, bindings: Bindings, call: SyncCall)
    requires SyncBy(p, bindings, call).Ok?
    ensures var q := SyncBy(p, bindings, call).value;
            if IsStored(p, call.catalog) then q == p else Installs(p, q, call)
  {
    SyncAccepted(p, bindings, call);
    var c, q := call.catalog, SyncBy(p, bindings, call).value;
    if !IsStored(p, c) {
      assert forall i | 0 <= i < |c.policies| :: c.policies[i].agent in CatalogAgents(c.policies);
      SyncedPolicies(p, c, call.path, call.now);
      forall i | 0 <= i < |c.policies|
        ensures c.policies[i].agent in q.policies
                && q.policies[c.policies[i].agent] == RowOf(c, c.policies[i], call.now)
      {
        RowOfPolicy(p, call, i);
      }
      assert forall a | a in CatalogAgents(c.policies) :: Lists(c, a);
      assert forall a | a in p.policies && p.policies[a].source != c.source ::
          a in NotOwnedBy(p.policies, c.source) && a in NotOwnedBy(q.policies, c.source);
    }
  }

  lemma RowOfPolicy(p: Projection, call: SyncCall, i: nat)
    requires i < |call.catalog.policies| && Distinct(call.catalog.policies)
    ensures var c, rows := call.catalog, SyncedRows(p, call.catalog, call.path, call.now).policies;
            c.policies[i].agent in rows && rows[c.policies[i].agent] == RowOf(c, c.policies[i], call.now)
  {
    var c := call.catalog;
    assert c.policies[..|c.policies|] == c.policies;
    assert c.policies[i].agent in CatalogAgents(c.policies);
    var j := InsertedFrom(c, |c.policies|, call.now, c.policies[i].agent);
    assert i == j;
  }

  // ---------------------------------------------------------------- a version never falls, and stands for its rows

  /** From `p` to `q` no source lost its row or its version, and one still at its version has all its rows unchanged. */
  ghost predicate Advances(p: Projection, q: Projection) {
    forall id | id in p.sources :: AdvancesAt(p, q, id)
  }

  predicate AdvancesAt(p: Projection, q: Projection, id: SourceId)
    requires id in p.sources
  {
    && id in q.sources && p.sources[id].version <= q.sources[id].version
    && (p.sources[id].version == q.sources[id].version ==>
          q.sources[id] == p.sources[id] && OwnedBy(q.policies, id) == OwnedBy(p.policies, id))
  }

  lemma OthersStay(p: Projection, q: Projection, call: SyncCall, id: SourceId)
    requires Installs(p, q, call) && id in p.sources && id != call.catalog.source
    ensures AdvancesAt(p, q, id)
  {
    var c := call.catalog;
    assert forall i | 0 <= i < |c.policies| :: q.policies[c.policies[i].agent].source == c.source;
    forall a | a in q.policies && q.policies[a].source == id
      ensures a in p.policies && p.policies[a] == q.policies[a]
    {
      assert !Lists(c, a);
    }
  }

  lemma SyncAdvances(p: Projection, bindings: Bindings, call: SyncCall)
    requires SyncBy(p, bindings, call).Ok?
    ensures Advances(p, SyncBy(p, bindings, call).value)
  {
    SyncAccepted(p, bindings, call);
    SyncLeaves(p, bindings, call);
    var c, q := call.catalog, SyncBy(p, bindings, call).value;
    hide SyncBy, Covers, SparesActive, Insertable;
    if !IsStored(p, c) {
      forall id | id in p.sources
        ensures AdvancesAt(p, q, id)
      {
        if id != c.source {
          OthersStay(p, q, call, id);
        }
      }
    }
  }

  lemma AdvancesOn(p: Projection, q: Projection, r: Projection)
    requires Advances(p, q) && Advances(q, r)
    ensures Advances(p, r)
  {
    forall id | id in p.sources ensures AdvancesAt(p, r, id) {
      assert AdvancesAt(p, q, id) && AdvancesAt(q, r, id);
    }
  }

  /**
   Over any run of syncs of any sources, accepted or refused: no stored version falls, and where a source stands twice
   at one version, its source row (hash and path) and its policy rows are the same both times.
   */
  lemma {:induction false} VersionsNeverFall(p: Projection, bindings: Bindings, calls: seq<SyncCall>, m: nat)
    requires m <= |calls|
    ensures Advances(AfterSyncs(p, bindings, calls[..m]), AfterSyncs(p, bindings, calls))
  {
    if m == |calls| {
      assert calls[..m] == calls;
    } else {
      var n := |calls| - 1;
      VersionsNeverFall(p, bindings, calls[..n], m);
      assert calls[..n][..m] == calls[..m];
      var before := AfterSyncs(p, bindings, calls[..n]);
      if SyncBy(before, bindings, calls[n]).Ok? {
        SyncAdvances(before, bindings, calls[n]);
        AdvancesOn(AfterSyncs(p, bindings, calls[..m]), before, AfterSyncs(p, bindings, calls));
      }
    }
  }

  /** A catalogue below what any earlier sync of the run left for its source is a downgrade, and changes no row. */
  lemma OlderIsRefused(p: Projection, bindings: Bindings, calls: seq<SyncCall>, m: nat, call: SyncCall)
    requires m <= |calls| && call.catalog.source in AfterSyncs(p, bindings, calls[..m]).sources
    requires call.catalog.version < AfterSyncs(p, bindings, calls[..m]).sources[call.catalog.source].version
    ensures SyncBy(AfterSyncs(p, bindings, calls), bindings, call) == Err(Downgrade)
    ensures AfterSyncs(p, bindings, calls + [call]) == AfterSyncs(p, bindings, calls)
  {
    VersionsNeverFall(p, bindings, calls, m);
    assert AdvancesAt(AfterSyncs(p, bindings, calls[..m]), AfterSyncs(p, bindings, calls), call.catalog.source);
    SyncAccepted(AfterSyncs(p, bindings, calls), bindings, call);
    assert (calls + [call])[..|calls|] == calls;
  }

  // ---------------------------------------------------------------- which restore is accepted

  /** The rows a snapshot holds for its target. */
  function Held(env: Envelope): map<AgentId, PolicyRow> {
    match env.snapshot.captured case Some(c) => c.policies case None => map[]
  }

  /** The current rows of other sources are the ones the snapshot saw; one without a witness saw none. */
  ghost predicate OthersAsSeen(p: Projection, target: SourceId, env: Envelope) {
    var seen := if env.snapshot.SnapshotV2? then env.snapshot.preserved else Projection(map[], map[]);
    && (forall id :: (id in p.sources && id != target) <==> id in seen.sources)
    && (forall id | id in seen.sources :: p.sources[id] == seen.sources[id])
    && (forall a :: (a in p.policies && p.policies[a].source != target) <==> a in seen.policies)
    && (forall a | a in seen.policies :: p.policies[a] == seen.policies[a])
  }

  /** The snapshot's policies and the other sources' share no agent, name bound agents and cover the enabled ones. */
  predicate Fits(p: Projection, bindings: Bindings, target: SourceId, env: Envelope) {
    && (forall a | a in Held(env) :: a in bindings && (a in p.policies ==> p.policies[a].source == target))
    && (forall a | a in bindings && bindings[a] ::
          a in Held(env) || (a in p.policies && p.policies[a].source != target))
  }

  ghost predicate Restorable(p: Projection, bindings: Bindings, activeLeases: nat, target: SourceId, env: Envelope) {
    && IsLabel(target) && AcceptableEnvelope(env, target) && ValidProjection(p, bindings) && activeLeases == 0
    && OthersAsSeen(p, target, env) && Fits(p, bindings, target, env)
  }

  lemma SeenExactly(p: Projection, target: SourceId, env: Envelope)
    ensures OthersAsSeen(p, target, env) <==> Preserved(p, target) == WitnessOf(env.snapshot)
  {
    var kept, seen := Preserved(p, target), WitnessOf(env.snapshot);
    assert forall id :: id in kept.sources <==> id in p.sources && id != target;
    assert forall a :: a in kept.policies <==> a in p.policies && p.policies[a].source != target;
    if OthersAsSeen(p, target, env) {
      assert kept.sources.Keys == seen.sources.Keys && kept.policies.Keys == seen.policies.Keys;
      assert kept.sources == seen.sources;
      assert kept.policies == seen.policies;
    }
  }

  lemma FitsExactly(p: Projection, bindings: Bindings, target: SourceId, env: Envelope)
    requires Preserved(p, target) == WitnessOf(env.snapshot) && ValidProjection(p, bindings)
    ensures var kept := WitnessOf(env.snapshot); var proposed := TargetPolicies(env.snapshot).Keys + kept.policies.Keys;
            Fits(p, bindings, target, env) <==>
              && proposed <= bindings.Keys
              && !(exists a :: a in bindings && bindings[a] && a !in proposed)
              && TargetPolicies(env.snapshot).Keys * kept.policies.Keys == {}
  {
    var owned, kept := TargetPolicies(env.snapshot), WitnessOf(env.snapshot).policies;
    assert owned == Held(env) && kept == NotOwnedBy(p.policies, target);
    assert forall a :: a in kept <==> a in p.policies && p.policies[a].source != target;
    assert kept.Keys <= bindings.Keys;
    if owned.Keys * kept.Keys == {} {
      forall a | a in owned ensures a !in kept {
        assert a !in owned.Keys * kept.Keys;
      }
    }
  }

  lemma RestoreAccepted(p: Projection, bindings: Bindings, activeLeases: nat, target: SourceId, env: Envelope)
    ensures Restore(p, bindings, activeLeases, target, env).Ok? <==>
              Restorable(p, bindings, activeLeases, target, env)
  {
    SeenExactly(p, target, env);
    if Preserved(p, target) == WitnessOf(env.snapshot) && ValidProjection(p, bindings) {
      FitsExactly(p, bindings, target, env);
    }
    hide OthersAsSeen, Fits, ValidProjection, AcceptableEnvelope, Preserved, RestoredRows, TargetPolicies;
  }

  /**
   A restore is accepted exactly for an envelope in order, over valid rows, with no active lease anywhere, while the
   other sources stand as the snapshot saw them and the snapshot's rows fit beside them.  It leaves the snapshot's rows
   for the target, or none if it held none, and every other row.
   */
  lemma RestoredExactly(p: Projection, bindings: Bindings, activeLeases: nat, target: SourceId, env: Envelope)
    ensures var result := Restore(p, bindings, activeLeases, target, env);
            && (result.Ok? <==> Restorable(p, bindings, activeLeases, target, env))
            && (result.Ok? ==>
                  && OwnedBy(result.value.policies, target) == Held(env)
                  && (target in result.value.sources <==> env.snapshot.captured.Some?)
                  && (env.snapshot.captured.Some? ==>
                        result.value.sources[target] == env.snapshot.captured.value.row)
                  && Preserved(result.value, target) == Preserved(p, target))
  {
    RestoreAccepted(p, bindings, activeLeases, target, env);
    if Restore(p, bindings, activeLeases, target, env).Ok? {
      RestoreKeepsValidity(p, bindings, activeLeases, target, env);
      RestoredOwned(p, bindings, activeLeases, target, env);
    }
    hide Restore, Restorable, Preserved, OwnedBy, Held;
  }

  lemma RestoredOwned(p: Projection, bindings: Bindings, activeLeases: nat, target: SourceId, env: Envelope)
    requires Restore(p, bindings, activeLeases, target, env).Ok?
    ensures var q := Restore(p, bindings, activeLeases, target, env).value;
            && OwnedBy(q.policies, target) == Held(env)
            && (target in q.sources <==> env.snapshot.captured.Some?)
            && (env.snapshot.captured.Some? ==> q.sources[target] == env.snapshot.captured.value.row)
  {
    RestoreDisjoint(p, bindings, activeLeases, target, env);
    var q, rest := Restore(p, bindings, activeLeases, target, env).value, NotOwnedBy(p.policies, target);
    assert env.snapshot.captured.Some? ==> ValidCaptured(env.snapshot.captured.value, target);
    assert q.policies == rest + Held(env);
    assert forall a | a in Held(env) :: Held(env)[a].source == target;
    hide RestoreRefusal;
  }
}
