/**
 The tables as the source holds them: rows that the calls insert, update and delete in place, with the loops of
 the source, each call proved to leave exactly the rows its specification names and to leave them alone on a refusal.
 */
module KernelStore {
  import opened Text
  import opened Capacity
  import opened Leases

  /** One insert of the loop below: it clashes exactly when the prefix stops being insertable. */
  lemma InsertOne(before: map<AgentId, PolicyRow>, c: Catalog, i: nat, now: int)
    requires i < |c.policies| && CatalogAgents(c.policies) !! before.Keys && Insertable(c.policies[..i])
    ensures Insertable(c.policies[..i + 1]) <==>
              c.policies[i].agent !in before + Inserted(c, i, now) && ValidLimit(c.policies[i].limit)
    ensures Insertable(c.policies) ==> Insertable(c.policies[..i + 1])
    ensures (before + Inserted(c, i, now))[c.policies[i].agent := RowOf(c, c.policies[i], now)] ==
              before + Inserted(c, i + 1, now)
  {
    assert c.policies[i].agent !in before by { assert c.policies[i].agent in CatalogAgents(c.policies); }
    PrefixGrows(c.policies, i);
    UpdateUnderMerge(before, Inserted(c, i, now), c.policies[i].agent, RowOf(c, c.policies[i], now));
  }

  lemma UpdateUnderMerge(before: map<AgentId, PolicyRow>, added: map<AgentId, PolicyRow>, a: AgentId, row: PolicyRow)
    ensures (before + added)[a := row] == before + added[a := row]
  {
  }

  lemma PreservedTwice(p: Projection, target: SourceId)
    ensures Preserved(Preserved(p, target), target) == Preserved(p, target)
  {
  }

  class Database {
    var sources: map<SourceId, SourceRow>
    var policies: map<AgentId, PolicyRow>
    var leases: LeaseTable
    var bindings: Bindings
    var reg: Registry

    constructor (bindings: Bindings, reg: Registry)
      ensures sources == map[] && policies == map[] && leases == map[] && this.bindings == bindings && this.reg == reg
    {
      sources, policies, leases := map[], map[], map[];
      this.bindings, this.reg := bindings, reg;
    }

    function Rows(): Projection
      reads this
    {
      Projection(sources, policies)
    }

    /** Validates every selected row; a tampered one refuses the whole selection. */
    method ValidateRows(rows: set<LeaseId>) returns (ok: bool)
      requires rows <= leases.Keys
      ensures ok <==> AllIntact(leases, rows)
    {
      var rest := rows;
      while rest != {}
        invariant rest <= rows && AllIntact(leases, rows - rest)
        decreases rest
      {
        var id :| id in rest;
        if !Intact(leases[id]) {
          return false;
        }
        rest := rest - {id};
      }
      return true;
    }

    method CountActiveLeases(agent: AgentId, now: int) returns (r: Result<nat, LeaseError>)
      ensures r == if AllIntact(leases, LiveIds(leases, agent, now)) then Ok(|LiveIds(leases, agent, now)|)
                else Err(Tampered)
    {
      var rows := LiveIds(leases, agent, now);
      var ok := ValidateRows(rows);
      return if ok then Ok(|rows|) else Err(Tampered);
    }

    /** The active lease on a resource, whatever its expiry. */
    method FindActiveResourceLease(key: ResourceKey) returns (r: Result<Option<LeaseId>, LeaseError>)
      ensures AllIntact(leases, ActiveOn(leases, key)) ==>
                r.Ok? && if ActiveOn(leases, key) == {} then r.value == None
                         else r.value.Some? && r.value.value in ActiveOn(leases, key)
      ensures !AllIntact(leases, ActiveOn(leases, key)) ==> r == Err(Tampered)
    {
      var rows := ActiveOn(leases, key);
      if rows == {} {
        return Ok(None);
      }
      var ok := ValidateRows(rows);
      if !ok {
        return Err(Tampered);
      }
      var first :| first in rows;
      return Ok(Some(first));
    }

    method FindAttempt(job: JobId, attempt: int) returns (r: Option<LeaseId>)
      ensures r.None? <==> OfAttempt(leases, job, attempt) == {}
      ensures r.Some? ==> r.value in OfAttempt(leases, job, attempt)
    {
      var rest := leases.Keys;
      while rest != {}
        invariant rest <= leases.Keys && OfAttempt(leases, job, attempt) <= rest
        decreases rest
      {
        var id :| id in rest;
        if leases[id].job == job && leases[id].attempt == attempt {
          assert id in OfAttempt(leases, job, attempt);
          return Some(id);
        }
        rest := rest - {id};
      }
      return None;
    }

    method ReserveAttemptLease(c: ReserveCall) returns (r: Result<Reserved, LeaseError>)
      requires AttemptsUnique(leases) && ResourcesUnique(leases)
      modifies this`leases
      ensures r == Reserve(old(leases), reg, policies, c)
      ensures leases == if r.Ok? then r.value.leases else old(leases)
    {
      var refusal := AuthorityRefusal(reg, policies, c);
      if refusal.Some? {
        return Err(refusal.value);
      }
      var policy := policies[c.agent];
      var existing := FindAttempt(c.job, c.attempt);
      if existing.Some? {
        var id := existing.value;
        TheAttempt(leases, c.job, c.attempt, id, AttemptLease(leases, c.job, c.attempt));
        if !Intact(leases[id]) {
          return Err(Tampered);
        }
        if !SameAttempt(leases[id], c, policy) {
          return Err(ConflictingReplay);
        }
        return Ok(Reserved(leases, id, true));
      }
      var holder := FindActiveResourceLease(Wanted(c));
      if holder.Err? {
        return Err(holder.error);
      }
      if holder.value.Some? {
        if leases[holder.value.value].expiresAt <= c.now {
          return Err(DueLeaseBlocks);
        }
        return Err(ResourceCollision);
      }
      var count := CountActiveLeases(c.agent, c.countNow);
      if count.Err? {
        return Err(count.error);
      }
      if count.value >= policy.limit {
        return Err(CapacityExhausted);
      }
      if c.agent !in reg.agents {
        return Err(LeaseError.UnregisteredAgent);
      }
      if c.profile !in reg.profiles {
        return Err(UnknownProfile);
      }
      if c.newId in leases {
        return Err(ConstraintViolation);
      }
      leases := leases[c.newId := NewLease(c, policy)];
      return Ok(Reserved(leases, c.newId, false));
    }

    method RenewAttemptLease(c: Claim, ttl: int, checkNow: int, now: int) returns (r: Result<int, LeaseError>)
      modifies this`leases
      ensures var spec := Renew(old(leases), c, ttl, checkNow, now);
              && (r == if spec.Ok? then Ok(now + ttl) else Err(spec.error))
              && (leases == if spec.Ok? then spec.value else old(leases))
    {
      if !ValidTtl(ttl) {
        return Err(BadTtl);
      }
      var refusal := ClaimRefusal(leases, c);
      if refusal.Some? {
        return Err(refusal.value);
      }
      var lease := leases[c.id];
      if !lease.status.Active? {
        return Err(NotActive);
      }
      if lease.expiresAt <= checkNow {
        return Err(LeaseExpired);
      }
      var expires := now + ttl;
      if expires <= lease.expiresAt {
        return Err(NoAdvance);
      }
      if now < lease.acquiredAt {
        return Err(ConstraintViolation);
      }
      leases := leases[c.id := lease.(renewedAt := now, expiresAt := expires)];
      return Ok(expires);
    }

    method ReleaseAttemptLease(c: Claim, reason: string, now: int) returns (r: Result<LeaseTable, LeaseError>)
      modifies this`leases
      ensures r == Release(old(leases), c, reason, now)
      ensures leases == if r.Ok? then r.value else old(leases)
    {
      if c.id == "" {
        return Err(BadLeaseId);
      }
      if !ValidReason(reason) {
        return Err(BadReason);
      }
      var refusal := ClaimRefusal(leases, c);
      if refusal.Some? {
        return Err(refusal.value);
      }
      match leases[c.id].status {
        case Released(_, before) =>
          if before != reason {
            return Err(ReasonDiffers);
          }
        case Expired =>
          return Err(AlreadyTerminal);
        case Active =>
          if now < leases[c.id].acquiredAt {
            return Err(ConstraintViolation);
          }
          leases := leases[c.id := leases[c.id].(status := Released(now, reason))];
      }
      return Ok(leases);
    }

    method ExpireAttemptLease(c: Claim) returns (r: Result<LeaseTable, LeaseError>)
      modifies this`leases
      ensures r == Expire(old(leases), c)
      ensures leases == if r.Ok? then r.value else old(leases)
    {
      var refusal := ClaimRefusal(leases, c);
      if refusal.Some? {
        return Err(refusal.value);
      }
      match leases[c.id].status {
        case Expired =>
        case Released(_, _) =>
          return Err(AlreadyTerminal);
        case Active =>
          leases := leases[c.id := leases[c.id].(status := Expired)];
      }
      return Ok(leases);
    }

    /** Collects the due leases first, refuses if one is tampered, and only then expires the collected ids. */
    method ExpireDueAttemptLeases(due: int) returns (r: Result<set<LeaseId>, LeaseError>)
      modifies this`leases
      ensures var spec := ExpireDue(old(leases), due);
              && (r == if spec.Ok? then Ok(DueIds(old(leases), due)) else Err(spec.error))
              && (leases == if spec.Ok? then spec.value else old(leases))
    {
      var ids := DueIds(leases, due);
      var ok := ValidateRows(ids);
      if !ok {
        return Err(Tampered);
      }
      var todo := ids;
      while todo != {}
        invariant todo <= ids && ids <= leases.Keys
        invariant leases == WithExpired(old(leases), ids - todo)
        decreases todo
      {
        var id :| id in todo;
        leases := leases[id := leases[id].(status := Expired)];
        todo := todo - {id};
        assert leases == WithExpired(old(leases), ids - todo);
      }
      assert ids - todo == ids;
      return Ok(ids);
    }

    /** Deletes the policy rows of one source. */
    method DeletePolicies(source: SourceId)
      modifies this`policies
      ensures policies == NotOwnedBy(old(policies), source)
    {
      var rest, kept := policies.Keys, map[];
      while rest != {}
        invariant rest <= policies.Keys && policies == old(policies)
        invariant kept == map a | a in policies && a !in rest && policies[a].source != source :: policies[a]
        decreases rest
      {
        var a :| a in rest;
        if policies[a].source != source {
          kept := kept[a := policies[a]];
        }
        rest := rest - {a};
      }
      policies := kept;
    }

    /** Inserts the catalogue's policies one by one until one breaks a table constraint. */
    method InsertPolicies(c: Catalog, now: int) returns (ok: bool)
      requires CatalogAgents(c.policies) !! policies.Keys
      modifies this`policies
      ensures ok <==> Insertable(c.policies)
      ensures ok ==> policies == old(policies) + Inserted(c, |c.policies|, now)
    {
      ghost var before := policies;
      for i := 0 to |c.policies|
        invariant policies == before + Inserted(c, i, now) && Insertable(c.policies[..i])
      {
        var p := c.policies[i];
        InsertOne(before, c, i, now);
        if p.agent in policies || !ValidLimit(p.limit) {
          return false;
        }
        policies := policies[p.agent := RowOf(c, p, now)];
      }
      assert c.policies[..|c.policies|] == c.policies;
      return true;
    }

    /** Upserts the source row, replaces its policy rows, and rolls everything back on a constraint failure. */
    method ReplaceRows(c: Catalog, path: Option<string>, now: int) returns (ok: bool)
      requires forall a | a in CatalogAgents(c.policies) && a in policies :: policies[a].source == c.source
      modifies this`sources, this`policies
      ensures ok <==> Insertable(c.policies)
      ensures Rows() == if ok then SyncedRows(old(Rows()), c, path, now) else old(Rows())
    {
      var before := Rows();
      sources := sources[c.source := SourceRow(c.version, c.hash, EffectivePath(c, path), now)];
      DeletePolicies(c.source);
      ok := InsertPolicies(c, now);
      if !ok {
        sources, policies := before.sources, before.policies;
      }
    }

    method SyncCapacityCatalog(c: Catalog, path: Option<string>, now: int) returns (r: Result<bool, CapacityError>)
      modifies this`sources, this`policies
      ensures var spec := Sync(old(Rows()), bindings, ActivePolicyIds(leases), c, path, now);
              && (r == if spec.Ok? then Ok(!KnownVersion(old(Rows()), c)) else Err(spec.error))
              && Rows() == (if spec.Ok? then spec.value else old(Rows()))
    {
      var agents := CatalogAgents(c.policies);
      if c.source in sources {
        if c.version < sources[c.source].version {
          return Err(Downgrade);
        }
        if c.version == sources[c.source].version && c.hash != sources[c.source].hash {
          return Err(HashWithoutBump);
        }
      }
      if !(agents + policies.Keys <= bindings.Keys) {
        return Err(CapacityError.UnknownAgent);
      }
      if exists a :: a in agents && a in policies && policies[a].source != c.source {
        return Err(OwnedElsewhere);
      }
      if exists a :: a in bindings && bindings[a] && a !in agents && a !in NotOwnedBy(policies, c.source) {
        return Err(CoverageGap);
      }
      if KnownVersion(Rows(), c) {
        return Ok(false);
      }
      var doomed := OldIds(policies, c.source) - NewIds(c);
      if doomed * ActivePolicyIds(leases) != {} {
        return Err(BlockedByLease);
      }
      var ok := ReplaceRows(c, path, now);
      return if ok then Ok(true) else Err(Constraint);
    }

    /** The strict validation, row by row. */
    method ValidateProjection() returns (ok: bool)
      ensures ok <==> ValidProjection(Rows(), bindings)
    {
      var ids := sources.Keys;
      while ids != {}
        invariant ids <= sources.Keys && forall id | id in sources && id !in ids :: ValidSource(id, sources[id])
        decreases ids
      {
        var id :| id in ids;
        if !ValidSource(id, sources[id]) {
          return false;
        }
        ids := ids - {id};
      }
      var agents := policies.Keys;
      while agents != {}
        invariant agents <= policies.Keys
        invariant forall a | a in policies && a !in agents ::
                    ValidPolicy(a, policies[a]) && Anchored(Rows(), a) && a in bindings
        decreases agents
      {
        var a :| a in agents;
        if !ValidPolicy(a, policies[a]) || !Anchored(Rows(), a) || a !in bindings {
          return false;
        }
        agents := agents - {a};
      }
      return forall a :: a in bindings && bindings[a] ==> a in policies;
    }

    /** The policy rows of the target and the others, told apart row by row. */
    method SplitPolicies(target: SourceId) returns (owned: map<AgentId, PolicyRow>, others: map<AgentId, PolicyRow>)
      ensures owned == OwnedBy(policies, target) && others == NotOwnedBy(policies, target)
    {
      owned, others := map[], map[];
      var rest := policies.Keys;
      while rest != {}
        invariant rest <= policies.Keys
        invariant owned == map a | a in policies && a !in rest && policies[a].source == target :: policies[a]
        invariant others == map a | a in policies && a !in rest && policies[a].source != target :: policies[a]
        decreases rest
      {
        var a :| a in rest;
        if policies[a].source == target {
          owned := owned[a := policies[a]];
        } else {
          others := others[a := policies[a]];
        }
        rest := rest - {a};
      }
    }

    /**
     Reads the projection only; writing the snapshot file is left to the caller.  An envelope is answered exactly for a
     valid projection; a restore accepts it, and restoring it over the rows it was taken from, or over those rows
     without the target's, gives them back.
     */
    method CaptureCapacitySnapshot(target: SourceId) returns (r: Result<Envelope, CapacityError>)
      ensures r == Capture(Rows(), bindings, target)
      ensures r.Ok? <==> IsLabel(target) && ValidProjection(Rows(), bindings)
      ensures r.Ok? ==>
                && AcceptableEnvelope(r.value, target)
                && RestoredRows(Rows(), target, r.value.snapshot) == Rows()
                && RestoredRows(Preserved(Rows(), target), target, r.value.snapshot) == Rows()
    {
      if !IsLabel(target) {
        return Err(InvalidLabel);
      }
      var ok := ValidateProjection();
      if !ok {
        return Err(InvalidProjection);
      }
      var owned, others := SplitPolicies(target);
      var captured := if target in sources then Some(Captured(target, sources[target], owned)) else None;
      var snapshot := SnapshotV2(target, captured, Projection(sources - {target}, others));
      r := Ok(Envelope(snapshot, SnapshotDigest(snapshot)));
      CaptureSplits(Rows(), bindings, target);
      RestoredRowsAreCaptured(Rows(), Rows(), target, snapshot);
      PreservedTwice(Rows(), target);
      RestoredRowsAreCaptured(Rows(), Preserved(Rows(), target), target, snapshot);
    }

    /** Inserts the captured policy rows one by one; none of them can meet an existing row. */
    method InsertCaptured(captured: map<AgentId, PolicyRow>)
      requires captured.Keys !! policies.Keys
      modifies this`policies
      ensures policies == old(policies) + captured
    {
      var todo := captured.Keys;
      while todo != {}
        invariant todo <= captured.Keys
        invariant policies == old(policies) + map a | a in captured && a !in todo :: captured[a]
        decreases todo
      {
        var a :| a in todo;
        assert a !in policies;
        policies := policies[a := captured[a]];
        todo := todo - {a};
      }
      assert (map a | a in captured && a !in todo :: captured[a]) == captured;
    }

    /** Deletes the target's rows and inserts the captured ones. */
    method WriteRestored(target: SourceId, snapshot: Snapshot)
      requires TargetPolicies(snapshot).Keys !! NotOwnedBy(policies, target).Keys
      modifies this`sources, this`policies
      ensures Rows() == RestoredRows(old(Rows()), target, snapshot)
    {
      DeletePolicies(target);
      sources := sources - {target};
      if snapshot.captured.Some? {
        var captured := snapshot.captured.value;
        sources := sources[captured.source := captured.row];
        InsertCaptured(captured.policies);
      }
    }

    method RestoreCapacitySnapshot(target: SourceId, env: Envelope) returns (r: Result<Envelope, CapacityError>)
      modifies this`sources, this`policies
      ensures var spec := Restore(old(Rows()), bindings, |ActiveIds(leases)|, target, env);
              && (r == if spec.Ok? then Ok(env) else Err(spec.error))
              && Rows() == (if spec.Ok? then spec.value else old(Rows()))
    {
      var refusal := RestoreRefusal(Rows(), bindings, |ActiveIds(leases)|, target, env);
      if refusal.Some? {
        return Err(refusal.value);
      }
      RestoreDisjoint(Rows(), bindings, |ActiveIds(leases)|, target, env);
      WriteRestored(target, env.snapshot);
      return Ok(env);
    }
  }
}
