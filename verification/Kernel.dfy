/**
 The lease table and the capacity catalogue together, over whole runs: any sequence of lease calls, catalogue
 syncs, snapshot restores, registry changes and clock readings.  Each call is one transaction.
 */
module Kernel {
  import opened Text
  import opened Capacity
  import opened Leases

  datatype State = State(clock: int, reg: Registry, bindings: Bindings, projection: Projection, leases: LeaseTable)

  datatype Op =
    | OpReserve(r: ReserveCall)
    | OpRenew(c: Claim, ttl: int, checkNow: int, now: int)
    | OpRelease(c: Claim, reason: string, now: int)
    | OpExpire(c: Claim)
    | OpExpireDue(due: int)
    | OpSync(catalog: Catalog, path: Option<string>, now: int)
    | OpRestore(target: SourceId, env: Envelope)
    | OpRegistry(newReg: Registry, newBindings: Bindings)
    | OpTick(now: int)

  /** The clock readings of one call are ordered and never precede an earlier reading. */
  predicate ClockOk(s: State, op: Op) {
    match op
    case OpReserve(r) => s.clock <= r.now <= r.countNow
    case OpRenew(_, _, checkNow, now) => s.clock <= checkNow <= now
    case OpRelease(_, _, now) => s.clock <= now
    case OpSync(_, _, now) => s.clock <= now
    case OpTick(now) => s.clock <= now
    case _ => true
  }

  function ClockAfter(s: State, op: Op): int {
    match op
    case OpReserve(r) => r.countNow
    case OpRenew(_, _, _, now) => now
    case OpRelease(_, _, now) => now
    case OpSync(_, _, now) => now
    case OpTick(now) => now
    case _ => s.clock
  }

  function LeasesAfter(s: State, op: Op): LeaseTable
    requires AttemptsUnique(s.leases)
  {
    match op
    case OpReserve(r) =>
      (match Reserve(s.leases, s.reg, s.projection.policies, r) case Ok(x) => x.leases case Err(_) => s.leases)
    case OpRenew(c, ttl, checkNow, now) =>
      (match Renew(s.leases, c, ttl, checkNow, now) case Ok(x) => x case Err(_) => s.leases)
    case OpRelease(c, reason, now) => (match Release(s.leases, c, reason, now) case Ok(x) => x case Err(_) => s.leases)
    case OpExpire(c) => (match Expire(s.leases, c) case Ok(x) => x case Err(_) => s.leases)
    case OpExpireDue(due) => (match ExpireDue(s.leases, due) case Ok(x) => x case Err(_) => s.leases)
    case _ => s.leases
  }

  function ProjectionAfter(s: State, op: Op): Projection {
    match op
    case OpSync(catalog, path, now) =>
      (match Sync(s.projection, s.bindings, ActivePolicyIds(s.leases), catalog, path, now)
       case Ok(x) => x case Err(_) => s.projection)
    case OpRestore(target, env) =>
      (match Restore(s.projection, s.bindings, |ActiveIds(s.leases)|, target, env)
       case Ok(x) => x case Err(_) => s.projection)
    case _ => s.projection
  }

  function After(s: State, op: Op): State
    requires AttemptsUnique(s.leases)
  {
    State(ClockAfter(s, op),
          if op.OpRegistry? then op.newReg else s.reg,
          if op.OpRegistry? then op.newBindings else s.bindings,
          ProjectionAfter(s, op),
          LeasesAfter(s, op))
  }

  // ---------------------------------------------------------------- what every call keeps

  /** Every policy row is named by its own content. */
  predicate Named(policies: map<AgentId, PolicyRow>) {
    forall a | a in policies ::
      policies[a].id == PolicyId(a, policies[a].hash, policies[a].limit, policies[a].source, policies[a].version)
  }

  predicate PinnedTo(l: Lease, policies: map<AgentId, PolicyRow>) {
    l.agent in policies && l.policyId == policies[l.agent].id && l.limit == policies[l.agent].limit
  }

  /** An active lease carries its agent's current policy. */
  predicate Pinned(leases: LeaseTable, policies: map<AgentId, PolicyRow>) {
    forall id | id in leases && leases[id].status.Active? :: PinnedTo(leases[id], policies)
  }

  /** An agent's live leases never outnumber its current limit. */
  predicate WithinCapacity(leases: LeaseTable, policies: map<AgentId, PolicyRow>, now: int) {
    forall a | a in policies :: |LiveIds(leases, a, now)| <= policies[a].limit
  }

  predicate Stamped(l: Lease) {
    l.acquiredAt <= l.renewedAt && l.renewedAt + MIN_TTL_SECONDS <= l.expiresAt <= l.renewedAt + MAX_TTL_SECONDS
  }

  predicate RowsSound(leases: LeaseTable) {
    forall id | id in leases :: Intact(leases[id]) && leases[id].attempt > 0 && Stamped(leases[id])
  }

  ghost predicate PoliciesSound(policies: map<AgentId, PolicyRow>) {
    Named(policies) && forall a | a in policies :: ValidLimit(policies[a].limit)
  }

  ghost predicate Inv(s: State) {
    && TableInv(s.leases, s.projection.policies)
    && PoliciesSound(s.projection.policies)
    && WithinCapacity(s.leases, s.projection.policies, s.clock)
    && forall id | id in s.leases :: s.leases[id].renewedAt <= s.clock
  }

  /** If no agent gains a live lease, capacity stays kept. */
  lemma FewerLive(before: LeaseTable, after: LeaseTable, policies: map<AgentId, PolicyRow>, t: int, u: int)
    requires WithinCapacity(before, policies, t)
    requires forall id | id in after && Live(after[id], u) ::
               id in before && Live(before[id], t) && before[id].agent == after[id].agent
    ensures WithinCapacity(after, policies, u)
  {
    forall a | a in policies
      ensures |LiveIds(after, a, u)| <= policies[a].limit
    {
      SubsetSize(LiveIds(after, a, u), LiveIds(before, a, t));
    }
  }

  /** What one call may do to an existing lease: nothing to its identity, nothing at all to a terminal one,
      and to an active one only end it or push its expiry forward, within the longest TTL of the renewal. */
  predicate Follows(before: Lease, after: Lease) {
    && (after.job == before.job && after.attempt == before.attempt && after.agent == before.agent
        && after.profile == before.profile && after.host == before.host && after.path == before.path
        && after.key == before.key
        && after.policyId == before.policyId && after.limit == before.limit && after.acquiredAt == before.acquiredAt)
    && (!before.status.Active? ==> after == before)
    && ((after.renewedAt == before.renewedAt && after.expiresAt == before.expiresAt)
        || (after.status.Active? && before.renewedAt <= after.renewedAt && before.expiresAt < after.expiresAt
            && after.renewedAt + MIN_TTL_SECONDS <= after.expiresAt <= after.renewedAt + MAX_TTL_SECONDS))
  }

  ghost predicate TableFollows(before: LeaseTable, after: LeaseTable) {
    after.Keys == before.Keys && forall id | id in before :: Follows(before[id], after[id])
  }

  ghost predicate TableInv(leases: LeaseTable, policies: map<AgentId, PolicyRow>) {
    AttemptsUnique(leases) && ResourcesUnique(leases) && RowsSound(leases) && Pinned(leases, policies)
  }

  lemma FollowingKeeps(before: LeaseTable, after: LeaseTable, policies: map<AgentId, PolicyRow>)
    requires TableInv(before, policies) && TableFollows(before, after)
    ensures TableInv(after, policies)
  {
    forall id | id in after
      ensures Intact(after[id]) && after[id].attempt > 0 && Stamped(after[id])
      ensures after[id].status.Active? ==> before[id].status.Active? && PinnedTo(after[id], policies)
    {
      assert Follows(before[id], after[id]);
    }
    forall a, b | a in after && b in after && after[a].job == after[b].job && after[a].attempt == after[b].attempt
      ensures a == b
    {
      assert Follows(before[a], after[a]) && Follows(before[b], after[b]);
    }
    forall a, b | a in after && b in after && after[a].status.Active? && after[b].status.Active?
      && after[a].key == after[b].key
      ensures a == b
    {
      assert Follows(before[a], after[a]) && Follows(before[b], after[b]);
    }
  }

  /** A step from clock `t` to clock `u` that only lets leases follow, stamps none in the future and revives none. */
  ghost predicate Quiet(before: LeaseTable, after: LeaseTable, t: int, u: int) {
    && TableFollows(before, after)
    && (forall id | id in before :: after[id].renewedAt <= u)
    && (forall id | id in before && Live(after[id], u) :: Live(before[id], t))
  }

  lemma OneLeaseQuiet(before: LeaseTable, id: LeaseId, l: Lease, t: int, u: int)
    requires t <= u && id in before && Follows(before[id], l) && l.renewedAt <= u
    requires Live(l, u) ==> Live(before[id], t)
    requires forall x | x in before :: before[x].renewedAt <= t
    ensures Quiet(before, before[id := l], t, u)
  {
  }

  lemma RenewFollows(leases: LeaseTable, c: Claim, ttl: int, checkNow: int, now: int, t: int)
    requires t <= checkNow <= now && Renew(leases, c, ttl, checkNow, now).Ok?
    requires forall id | id in leases :: leases[id].renewedAt <= t
    ensures Quiet(leases, Renew(leases, c, ttl, checkNow, now).value, t, now)
  {
    OneLeaseQuiet(leases, c.id, leases[c.id].(renewedAt := now, expiresAt := now + ttl), t, now);
  }

  lemma ReleaseFollows(leases: LeaseTable, c: Claim, reason: string, now: int, t: int)
    requires t <= now && Release(leases, c, reason, now).Ok?
    requires forall id | id in leases :: leases[id].renewedAt <= t
    ensures Quiet(leases, Release(leases, c, reason, now).value, t, now)
  {
    if leases[c.id].status.Active? {
      OneLeaseQuiet(leases, c.id, leases[c.id].(status := Released(now, reason)), t, now);
    }
  }

  lemma ExpireFollows(leases: LeaseTable, c: Claim, t: int)
    requires Expire(leases, c).Ok?
    requires forall id | id in leases :: leases[id].renewedAt <= t
    ensures Quiet(leases, Expire(leases, c).value, t, t)
  {
    if leases[c.id].status.Active? {
      OneLeaseQuiet(leases, c.id, leases[c.id].(status := Expired), t, t);
    }
  }

  lemma ExpireDueFollows(leases: LeaseTable, due: int, t: int)
    requires forall id | id in leases :: leases[id].renewedAt <= t
    ensures Quiet(leases, WithExpired(leases, DueIds(leases, due)), t, t)
  {
  }

  lemma UnchangedFollows(leases: LeaseTable, t: int, u: int)
    requires t <= u && forall id | id in leases :: leases[id].renewedAt <= t
    ensures Quiet(leases, leases, t, u)
  {
  }

  /** Everything but a reserve leaves the set of leases alone and makes each one follow its earlier self. */
  lemma CallFollows(s: State, op: Op)
    requires AttemptsUnique(s.leases) && ClockOk(s, op) && !op.OpReserve?
    requires forall id | id in s.leases :: s.leases[id].renewedAt <= s.clock
    ensures Quiet(s.leases, LeasesAfter(s, op), s.clock, ClockAfter(s, op))
  {
    UnchangedFollows(s.leases, s.clock, ClockAfter(s, op));
    match op
    case OpRenew(c, ttl, checkNow, now) =>
      if Renew(s.leases, c, ttl, checkNow, now).Ok? { RenewFollows(s.leases, c, ttl, checkNow, now, s.clock); }
    case OpRelease(c, reason, now) =>
      if Release(s.leases, c, reason, now).Ok? { ReleaseFollows(s.leases, c, reason, now, s.clock); }
    case OpExpire(c) =>
      if Expire(s.leases, c).Ok? { ExpireFollows(s.leases, c, s.clock); }
    case OpExpireDue(due) => ExpireDueFollows(s.leases, due, s.clock);
    case _ =>
  }

  /** A reserve adds at most one lease, for an attempt and a worktree nobody holds, under the agent's policy. */
  lemma ReserveAdds(leases: LeaseTable, reg: Registry, policies: map<AgentId, PolicyRow>, r: ReserveCall)
    requires AttemptsUnique(leases) && Reserve(leases, reg, policies, r).Ok?
    requires !Reserve(leases, reg, policies, r).value.replayed
    ensures r.agent in policies && r.path.Some? && ValidTtl(r.ttl) && r.attempt > 0 && r.newId !in leases
    ensures Reserve(leases, reg, policies, r).value.leases == leases[r.newId := NewLease(r, policies[r.agent])]
    ensures |LiveIds(leases, r.agent, r.countNow)| < policies[r.agent].limit
    ensures forall id | id in leases :: !(leases[id].job == r.job && leases[id].attempt == r.attempt)
    ensures forall id | id in leases && leases[id].status.Active? :: leases[id].key != Wanted(r)
  {
    assert OfAttempt(leases, r.job, r.attempt) == {};
    assert ActiveOn(leases, Wanted(r)) == {};
    forall id | id in leases
      ensures !(leases[id].job == r.job && leases[id].attempt == r.attempt)
      ensures leases[id].status.Active? ==> leases[id].key != Wanted(r)
    {
      assert id !in OfAttempt(leases, r.job, r.attempt) && id !in ActiveOn(leases, Wanted(r));
    }
  }

  /** A lease that nobody collides with fits the table. */
  lemma AddingKeeps(leases: LeaseTable, policies: map<AgentId, PolicyRow>, id: LeaseId, l: Lease)
    requires TableInv(leases, policies) && id !in leases
    requires Intact(l) && l.attempt > 0 && Stamped(l) && PinnedTo(l, policies)
    requires forall x | x in leases :: !(leases[x].job == l.job && leases[x].attempt == l.attempt)
    requires forall x | x in leases && leases[x].status.Active? :: leases[x].key != l.key
    ensures TableInv(leases[id := l], policies)
  {
  }

  lemma AddingCounts(leases: LeaseTable, policies: map<AgentId, PolicyRow>, id: LeaseId, l: Lease, now: int)
    requires WithinCapacity(leases, policies, now) && id !in leases && l.agent in policies
    requires |LiveIds(leases, l.agent, now)| < policies[l.agent].limit
    ensures WithinCapacity(leases[id := l], policies, now)
  {
    forall a | a in policies
      ensures |LiveIds(leases[id := l], a, now)| <= policies[a].limit
    {
      var before := LiveIds(leases, a, now);
      if a == l.agent {
        SubsetSize(LiveIds(leases[id := l], a, now), before + {id});
      } else {
        assert LiveIds(leases[id := l], a, now) == before;
      }
    }
  }

  lemma NewLeaseIs(r: ReserveCall, policies: map<AgentId, PolicyRow>)
    requires r.path.Some? && ValidTtl(r.ttl) && r.agent in policies
    ensures var l := NewLease(r, policies[r.agent]);
            && Intact(l) && Stamped(l) && PinnedTo(l, policies) && l.agent == r.agent && l.key == Wanted(r)
            && l.job == r.job && l.attempt == r.attempt && l.renewedAt == r.now
  {
  }

  lemma ReserveKeeps(s: State, r: ReserveCall)
    requires Inv(s) && ClockOk(s, OpReserve(r))
    ensures Inv(After(s, OpReserve(r)))
  {
    hide LiveIds, Intact, Stamped, PinnedTo, NewLease, WithinCapacity;
    var policies, result := s.projection.policies, Reserve(s.leases, s.reg, s.projection.policies, r);
    FewerLive(s.leases, s.leases, policies, s.clock, r.countNow);
    if result.Ok? && !result.value.replayed {
      ReserveAdds(s.leases, s.reg, policies, r);
      NewLeaseIs(r, policies);
      AddingKeeps(s.leases, policies, r.newId, NewLease(r, policies[r.agent]));
      AddingCounts(s.leases, policies, r.newId, NewLease(r, policies[r.agent]), r.countNow);
    }
  }

  lemma LeaseCallKeeps(s: State, op: Op)
    requires Inv(s) && ClockOk(s, op) && !op.OpReserve? && !op.OpSync? && !op.OpRestore?
    ensures Inv(After(s, op))
  {
    CallFollows(s, op);
    FollowingKeeps(s.leases, LeasesAfter(s, op), s.projection.policies);
    FewerLive(s.leases, LeasesAfter(s, op), s.projection.policies, s.clock, ClockAfter(s, op));
  }

  /**
   The sync guard pins what active leases use: after any successful sync, an agent that holds an active lease
   still has a policy row with the same id and the same limit.
   */
  lemma SyncPins(s: State, catalog: Catalog, path: Option<string>, now: int, id: LeaseId)
    requires Named(s.projection.policies) && Pinned(s.leases, s.projection.policies)
    requires id in s.leases && s.leases[id].status.Active?
    ensures PinnedTo(s.leases[id], ProjectionAfter(s, OpSync(catalog, path, now)).policies)
  {
    var p, active, l := s.projection, ActivePolicyIds(s.leases), s.leases[id];
    assert l.policyId in active;
    if SyncRefusal(p, s.bindings, active, catalog).None? && !KnownVersion(p, catalog) {
      SyncedPolicies(p, catalog, path, now);
      var rows := SyncedRows(p, catalog, path, now).policies;
      if p.policies[l.agent].source == catalog.source {
        assert l.policyId in OldIds(p.policies, catalog.source);
        assert l.policyId in NewIds(catalog) by {
          assert l.policyId !in (OldIds(p.policies, catalog.source) - NewIds(catalog)) * active;
        }
        assert l.agent in CatalogAgents(catalog.policies);
        SyncedRowOf(p, catalog, path, now, l.policyId);
      } else {
        assert l.agent in NotOwnedBy(rows, catalog.source);
      }
    }
  }

  /** The synced row of an agent is the one its new policy id names. */
  lemma SyncedRowOf(p: Projection, c: Catalog, path: Option<string>, now: int, pid: PolicyId)
    requires Distinct(c.policies) && pid in NewIds(c)
    ensures var rows := SyncedRows(p, c, path, now).policies;
            pid.agent in rows && rows[pid.agent].id == pid && rows[pid.agent].limit == pid.limit
  {
    assert c.policies[..|c.policies|] == c.policies;
    var i :| 0 <= i < |c.policies| && IdOf(c, c.policies[i]) == pid;
    var added := Inserted(c, |c.policies|, now);
    assert pid.agent in added;
    var j := InsertedFrom(c, |c.policies|, now, pid.agent);
    assert i == j;
  }

  /** Over the same leases, pinning carries the capacity bound from the old policies to the new ones. */
  lemma PinnedCapacity(leases: LeaseTable, before: map<AgentId, PolicyRow>, after: map<AgentId, PolicyRow>, t: int,
                       u: int)
    requires t <= u && WithinCapacity(leases, before, t) && Pinned(leases, before) && Pinned(leases, after)
    requires forall a | a in after :: after[a].limit >= 0
    ensures WithinCapacity(leases, after, u)
  {
    forall a | a in after
      ensures |LiveIds(leases, a, u)| <= after[a].limit
    {
      if id :| id in LiveIds(leases, a, u) {
        assert PinnedTo(leases[id], before) && PinnedTo(leases[id], after);
        SubsetSize(LiveIds(leases, a, u), LiveIds(leases, a, t));
      } else {
        assert LiveIds(leases, a, u) == {};
      }
    }
  }

  lemma SyncKeepsPoliciesSound(p: Projection, c: Catalog, path: Option<string>, now: int)
    requires PoliciesSound(p.policies)
    requires forall a | a in CatalogAgents(c.policies) && a in p.policies :: p.policies[a].source == c.source
    requires forall i | 0 <= i < |c.policies| :: ValidLimit(c.policies[i].limit)
    ensures PoliciesSound(SyncedRows(p, c, path, now).policies)
  {
    SyncedPolicies(p, c, path, now);
    var rows := SyncedRows(p, c, path, now).policies;
    forall a | a in rows
      ensures rows[a].id == PolicyId(a, rows[a].hash, rows[a].limit, rows[a].source, rows[a].version)
      ensures ValidLimit(rows[a].limit)
    {
      assert rows[a].source != c.source ==> a in NotOwnedBy(rows, c.source);
    }
  }

  lemma SyncKeeps(s: State, catalog: Catalog, path: Option<string>, now: int)
    requires Inv(s) && ClockOk(s, OpSync(catalog, path, now))
    ensures Inv(After(s, OpSync(catalog, path, now)))
  {
    var p, q := s.projection, ProjectionAfter(s, OpSync(catalog, path, now));
    forall id | id in s.leases && s.leases[id].status.Active?
      ensures PinnedTo(s.leases[id], q.policies)
    {
      SyncPins(s, catalog, path, now, id);
    }
    if SyncRefusal(p, s.bindings, ActivePolicyIds(s.leases), catalog).None? && !KnownVersion(p, catalog) {
      SyncKeepsPoliciesSound(p, catalog, path, now);
    }
    PinnedCapacity(s.leases, p.policies, q.policies, s.clock, now);
  }

  lemma RestoreKeeps(s: State, target: SourceId, env: Envelope)
    requires Inv(s)
    ensures Inv(After(s, OpRestore(target, env)))
  {
    var result := Restore(s.projection, s.bindings, |ActiveIds(s.leases)|, target, env);
    if result.Ok? {
      RestoreKeepsValidity(s.projection, s.bindings, |ActiveIds(s.leases)|, target, env);
      assert ActiveIds(s.leases) == {};
      forall id | id in s.leases ensures !s.leases[id].status.Active? {
        assert id !in ActiveIds(s.leases);
      }
      assert forall a | a in result.value.policies :: LiveIds(s.leases, a, s.clock) == {};
    }
  }

  lemma CallKeeps(s: State, op: Op)
    requires Inv(s) && ClockOk(s, op)
    ensures Inv(After(s, op))
  {
    match op
    case OpReserve(r) => ReserveKeeps(s, r);
    case OpSync(catalog, path, now) => SyncKeeps(s, catalog, path, now);
    case OpRestore(target, env) => RestoreKeeps(s, target, env);
    case _ => LeaseCallKeeps(s, op);
  }

  // ---------------------------------------------------------------- runs

  /**
   `run[i]` is the state before `ops[i]`; the last one is the state after the whole run.  `After` is defined on tables
   without two leases of one attempt, which every state of a run turns out to have.
   */
  ghost predicate Stepped(run: seq<State>, ops: seq<Op>, i: nat)
    requires |run| == |ops| + 1 && i < |ops|
  {
    ClockOk(run[i], ops[i]) && (AttemptsUnique(run[i].leases) ==> run[i + 1] == After(run[i], ops[i]))
  }

  ghost predicate IsRun(run: seq<State>, ops: seq<Op>) {
    && |run| == |ops| + 1
    && run[0].leases == map[] && run[0].projection == Projection(map[], map[])
    && forall i | 0 <= i < |ops| :: Stepped(run, ops, i)
  }

  lemma {:induction false} RunKeeps(run: seq<State>, ops: seq<Op>, n: nat)
    requires IsRun(run, ops) && n < |run|
    ensures Inv(run[n])
  {
    if n == 0 {
      assert run[0].projection.policies == map[] && run[0].leases == map[];
    } else {
      RunKeeps(run, ops, n - 1);
      assert Stepped(run, ops, n - 1);
      CallKeeps(run[n - 1], ops[n - 1]);
    }
  }

  /** Capacity over whole runs, at every state and at every later instant before the next call. */
  lemma CapacityNeverExceeded(run: seq<State>, ops: seq<Op>, n: nat, agent: AgentId, t: int)
    requires IsRun(run, ops) && n < |run| && run[n].clock <= t
    ensures forall id | id in run[n].leases && run[n].leases[id].status.Active? ::
              PinnedTo(run[n].leases[id], run[n].projection.policies)
    ensures agent in run[n].projection.policies ==>
              |LiveIds(run[n].leases, agent, t)| <= run[n].projection.policies[agent].limit
    ensures agent !in run[n].projection.policies ==> LiveIds(run[n].leases, agent, t) == {}
  {
    RunKeeps(run, ops, n);
    FewerLive(run[n].leases, run[n].leases, run[n].projection.policies, run[n].clock, t);
    forall id | id in LiveIds(run[n].leases, agent, t) ensures agent in run[n].projection.policies {
      assert PinnedTo(run[n].leases[id], run[n].projection.policies);
    }
  }

  /** Two active leases never share a worktree, even past expiry, and two leases never share an attempt. */
  lemma ResourceExclusion(run: seq<State>, ops: seq<Op>, n: nat, a: LeaseId, b: LeaseId)
    requires IsRun(run, ops) && n < |run| && a in run[n].leases && b in run[n].leases && a != b
    ensures !(run[n].leases[a].job == run[n].leases[b].job && run[n].leases[a].attempt == run[n].leases[b].attempt)
    ensures run[n].leases[a].status.Active? && run[n].leases[b].status.Active? ==>
              (run[n].leases[a].host, run[n].leases[a].path) != (run[n].leases[b].host, run[n].leases[b].path)
  {
    RunKeeps(run, ops, n);
  }

  lemma StepHistory(s: State, op: Op, id: LeaseId)
    requires Inv(s) && ClockOk(s, op) && id in s.leases
    ensures id in After(s, op).leases && Follows(s.leases[id], After(s, op).leases[id])
  {
    if op.OpReserve? {
      var result := Reserve(s.leases, s.reg, s.projection.policies, op.r);
      if result.Ok? && !result.value.replayed {
        ReserveAdds(s.leases, s.reg, s.projection.policies, op.r);
      }
    } else {
      CallFollows(s, op);
    }
  }

  /**
   What the later row of a lease may differ in: nothing once it is terminal, never its identity, its expiry only
   forward.
   */
  predicate Later(before: Lease, after: Lease) {
    && (!before.status.Active? ==> after == before)
    && after.job == before.job && after.attempt == before.attempt && after.agent == before.agent
    && after.key == before.key
    && before.expiresAt <= after.expiresAt
  }

  lemma StepLater(s: State, op: Op, id: LeaseId, first: Lease)
    requires Inv(s) && ClockOk(s, op) && id in s.leases && Later(first, s.leases[id])
    ensures id in After(s, op).leases && Later(first, After(s, op).leases[id])
  {
    StepHistory(s, op, id);
  }

  lemma NextLater(run: seq<State>, ops: seq<Op>, i: nat, id: LeaseId, first: Lease)
    requires IsRun(run, ops) && i < |ops| && id in run[i].leases && Later(first, run[i].leases[id])
    ensures id in run[i + 1].leases && Later(first, run[i + 1].leases[id])
  {
    RunKeeps(run, ops, i);
    assert Stepped(run, ops, i);
    StepLater(run[i], ops[i], id, first);
  }

  lemma ExpiryBounded(run: seq<State>, ops: seq<Op>, n: nat, id: LeaseId)
    requires IsRun(run, ops) && n < |run| && id in run[n].leases
    ensures run[n].leases[id].expiresAt <= run[n].clock + MAX_TTL_SECONDS
  {
    RunKeeps(run, ops, n);
    assert Stamped(run[n].leases[id]);
  }

  /** Over any stretch of any run a lease is never lost, its identity never changes, a released or expired one never
      changes at all, and its expiry never moves back nor reaches more than the longest TTL past the clock. */
  lemma {:induction false} LeaseHistory(run: seq<State>, ops: seq<Op>, m: nat, n: nat, id: LeaseId)
    requires IsRun(run, ops) && m <= n < |run| && id in run[m].leases
    ensures id in run[n].leases && Later(run[m].leases[id], run[n].leases[id])
    ensures run[n].leases[id].expiresAt <= run[n].clock + MAX_TTL_SECONDS
  {
    if m < n {
      LeaseHistory(run, ops, m, n - 1, id);
      NextLater(run, ops, n - 1, id, run[m].leases[id]);
    }
    ExpiryBounded(run, ops, n, id);
  }

  /**
   A renewal that changes the table strictly extends one live lease, to at most the longest TTL past the clock, and no
   other.
   */
  lemma RenewalExtends(run: seq<State>, ops: seq<Op>, i: nat)
    requires IsRun(run, ops) && i < |ops| && ops[i].OpRenew? && run[i + 1].leases != run[i].leases
    ensures var id, before, after := ops[i].c.id, run[i].leases, run[i + 1].leases;
            && id in before && before[id].status.Active? && run[i].clock < before[id].expiresAt
            && after == before[id :=
                               before[id].(renewedAt := run[i + 1].clock, expiresAt := run[i + 1].clock + ops[i].ttl)]
            && before[id].expiresAt < after[id].expiresAt <= run[i + 1].clock + MAX_TTL_SECONDS
  {
    RunKeeps(run, ops, i);
    assert Stepped(run, ops, i);
  }
}
