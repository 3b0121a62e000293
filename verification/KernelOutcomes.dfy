/**
 What the lease calls do, said from the rows alone: exactly which reserve is granted and which row it adds, exactly
 which renewal, release or expiry changes a row, and that every limit can be used in full.
 */
module KernelOutcomes {
  import opened Text
  import opened Capacity
  import opened Leases
  import opened Kernel
  import opened CapacityOutcomes

  // ---------------------------------------------------------------- which reserve is granted

  /** The call repeats its job's row, names a worktree of that job's host, and its agent has a policy. */
  predicate Authorized(reg: Registry, policies: map<AgentId, PolicyRow>, r: ReserveCall) {
    && MIN_TTL_SECONDS <= r.ttl <= MAX_TTL_SECONDS && r.attempt > 0 && r.profile != "" && r.agent in policies
    && r.job in reg.jobs
    && reg.jobs[r.job].agent == r.agent && reg.jobs[r.job].profile == Some(r.profile)
    && reg.jobs[r.job].attempts == r.attempt
    && r.host in reg.jobs[r.job].contexts && r.path == Some(reg.jobs[r.job].contexts[r.host])
  }

  /** No lease has the call's attempt, and no active one its worktree. */
  predicate Unheld(leases: LeaseTable, r: ReserveCall) {
    forall id | id in leases ::
      && (leases[id].job, leases[id].attempt) != (r.job, r.attempt)
      && (leases[id].status.Active? ==> (leases[id].host, Some(leases[id].path)) != (r.host, r.path))
  }

  /** Fewer of the agent's leases than its limit are active and expire later than the counting instant. */
  predicate HasRoom(leases: LeaseTable, policies: map<AgentId, PolicyRow>, r: ReserveCall)
    requires r.agent in policies
  {
    var counted := set id | id in leases && leases[id].agent == r.agent && leases[id].status.Active?
                            && r.countNow < leases[id].expiresAt;
    |counted| < policies[r.agent].limit
  }

  /** The insert breaks no key. */
  predicate Storable(leases: LeaseTable, reg: Registry, r: ReserveCall) {
    r.agent in reg.agents && r.profile in reg.profiles && r.newId !in leases
  }

  predicate Grantable(s: State, r: ReserveCall) {
    && Authorized(s.reg, s.projection.policies, r) && Unheld(s.leases, r)
    && HasRoom(s.leases, s.projection.policies, r) && Storable(s.leases, s.reg, r)
  }

  lemma AuthorizedExactly(reg: Registry, policies: map<AgentId, PolicyRow>, r: ReserveCall)
    ensures AuthorityRefusal(reg, policies, r).None? <==> Authorized(reg, policies, r)
  {
  }

  lemma UnheldExactly(leases: LeaseTable, r: ReserveCall)
    requires RowsSound(leases) && r.path.Some?
    ensures Unheld(leases, r) <==>
              OfAttempt(leases, r.job, r.attempt) == {} && ActiveOn(leases, Wanted(r)) == {}
  {
    if OfAttempt(leases, r.job, r.attempt) == {} && ActiveOn(leases, Wanted(r)) == {} {
      forall id | id in leases
        ensures (leases[id].job, leases[id].attempt) != (r.job, r.attempt)
        ensures leases[id].status.Active? ==> (leases[id].host, Some(leases[id].path)) != (r.host, r.path)
      {
        assert id !in OfAttempt(leases, r.job, r.attempt) && id !in ActiveOn(leases, Wanted(r));
      }
    }
  }

  /** What the checks of a new attempt come to on rows that are intact. */
  lemma TableExactly(leases: LeaseTable, reg: Registry, policies: map<AgentId, PolicyRow>, r: ReserveCall)
    requires RowsSound(leases) && r.path.Some? && r.agent in policies
    ensures var e := TableRefusal(leases, reg, policies[r.agent], r);
            && (e.None? <==> ActiveOn(leases, Wanted(r)) == {} && HasRoom(leases, policies, r)
                             && Storable(leases, reg, r))
            && (e == Some(CapacityExhausted) <==>
                  ActiveOn(leases, Wanted(r)) == {} && !HasRoom(leases, policies, r))
  {
    assert AllIntact(leases, ActiveOn(leases, Wanted(r)))
      && AllIntact(leases, LiveIds(leases, r.agent, r.countNow)) by {
      assert forall id | id in leases :: Intact(leases[id]);
    }
    assert LiveIds(leases, r.agent, r.countNow) == set id | id in leases && leases[id].agent == r.agent
                                                     && leases[id].status.Active? && r.countNow < leases[id].expiresAt;
  }

  /** The row a granted call adds, column by column. */
  predicate IsGrantOf(l: Lease, r: ReserveCall, policy: PolicyRow) {
    && l.job == r.job && l.attempt == r.attempt && l.agent == r.agent && l.profile == r.profile
    && l.host == r.host && Some(l.path) == r.path && l.key == ResourceKey(l.host, l.path)
    && l.policyId == policy.id && l.limit == policy.limit && l.status == Active
    && l.acquiredAt == r.now && l.renewedAt == r.now && l.expiresAt == r.now + r.ttl
  }

  /** One row is added and every other row stays. */
  predicate Adds(before: LeaseTable, after: LeaseTable, id: LeaseId) {
    id !in before && id in after && after == before[id := after[id]]
  }

  lemma ReserveOutcome(s: State, r: ReserveCall)
    requires AttemptsUnique(s.leases) && RowsSound(s.leases)
    ensures var after := After(s, OpReserve(r)).leases;
            if Grantable(s, r)
            then Adds(s.leases, after, r.newId) && IsGrantOf(after[r.newId], r, s.projection.policies[r.agent])
            else after == s.leases
    ensures Reserve(s.leases, s.reg, s.projection.policies, r) == Err(CapacityExhausted) <==>
              Authorized(s.reg, s.projection.policies, r) && Unheld(s.leases, r)
              && !HasRoom(s.leases, s.projection.policies, r)
  {
    AuthorizedExactly(s.reg, s.projection.policies, r);
    if Authorized(s.reg, s.projection.policies, r) {
      UnheldExactly(s.leases, r);
      TableExactly(s.leases, s.reg, s.projection.policies, r);
    }
    hide Authorized, Unheld, HasRoom, Storable, AuthorityRefusal, TableRefusal, RowsSound;
  }

  /**
   In every reachable state a reserve is granted exactly if the call is authorized, nobody holds its attempt or its
   worktree, the agent has room, and the insert breaks no key.  It then adds exactly the row of the call; otherwise the
   table stays.  Exhausted capacity is answered exactly where only room is missing.
   */
  lemma GrantedExactly(run: seq<State>, ops: seq<Op>, i: nat)
    requires IsRun(run, ops) && i < |ops| && ops[i].OpReserve?
    ensures var s, r, after := run[i], ops[i].r, run[i + 1].leases;
            if Grantable(s, r)
            then Adds(s.leases, after, r.newId) && IsGrantOf(after[r.newId], r, s.projection.policies[r.agent])
            else after == s.leases
    ensures AttemptsUnique(run[i].leases)
    ensures Reserve(run[i].leases, run[i].reg, run[i].projection.policies, ops[i].r) == Err(CapacityExhausted) <==>
              Authorized(run[i].reg, run[i].projection.policies, ops[i].r) && Unheld(run[i].leases, ops[i].r)
              && !HasRoom(run[i].leases, run[i].projection.policies, ops[i].r)
  {
    RunKeeps(run, ops, i);
    assert Stepped(run, ops, i);
    ReserveOutcome(run[i], ops[i].r);
  }

  /**
   A repeated call is answered with its own lease, unchanged, exactly if that lease still has the call's agent, profile
   and worktree and the agent's current policy.
   */
  lemma ReplayedExactly(run: seq<State>, ops: seq<Op>, n: nat, r: ReserveCall, id: LeaseId)
    requires IsRun(run, ops) && n < |run|
    ensures AttemptsUnique(run[n].leases)
    ensures var s := run[n];
            Reserve(s.leases, s.reg, s.projection.policies, r) == Ok(Reserved(s.leases, id, true)) <==>
              && Authorized(s.reg, s.projection.policies, r) && id in s.leases
              && s.leases[id].job == r.job && s.leases[id].attempt == r.attempt
              && s.leases[id].agent == r.agent && s.leases[id].profile == r.profile
              && s.leases[id].host == r.host && Some(s.leases[id].path) == r.path
              && s.leases[id].policyId == s.projection.policies[r.agent].id
              && s.leases[id].limit == s.projection.policies[r.agent].limit
  {
    RunKeeps(run, ops, n);
    var s := run[n];
    AuthorizedExactly(s.reg, s.projection.policies, r);
    hide Authorized, AuthorityRefusal, TableRefusal;
    if Authorized(s.reg, s.projection.policies, r) && id in OfAttempt(s.leases, r.job, r.attempt) {
      TheAttempt(s.leases, r.job, r.attempt, id, AttemptLease(s.leases, r.job, r.attempt));
      assert Intact(s.leases[id]);
    }
  }

  // ---------------------------------------------------------------- what the other lease calls change

  /** The claim names a lease of the table with its own job, attempt and agent. */
  predicate Names(leases: LeaseTable, c: Claim) {
    && c.id != "" && c.attempt > 0 && c.id in leases
    && leases[c.id].job == c.job && leases[c.id].attempt == c.attempt && leases[c.id].agent == c.agent
  }

  lemma RowInRun(run: seq<State>, ops: seq<Op>, n: nat, id: LeaseId)
    requires IsRun(run, ops) && n < |run|
    ensures id in run[n].leases ==> Intact(run[n].leases[id]) && run[n].leases[id].acquiredAt <= run[n].clock
  {
    RunKeeps(run, ops, n);
    assert id in run[n].leases ==> Stamped(run[n].leases[id]);
  }

  lemma RenewOutcome(leases: LeaseTable, c: Claim, ttl: int, checkNow: int, now: int)
    requires c.id in leases ==> Intact(leases[c.id]) && leases[c.id].acquiredAt <= now
    ensures var result := Renew(leases, c, ttl, checkNow, now);
            && (result.Ok? <==>
                  && Names(leases, c) && leases[c.id].status == Active
                  && checkNow < leases[c.id].expiresAt < now + ttl && MIN_TTL_SECONDS <= ttl <= MAX_TTL_SECONDS)
            && (result.Ok? ==>
                  result.value == leases[c.id := leases[c.id].(renewedAt := now, expiresAt := now + ttl)])
  {
  }

  /**
   A renewal lands exactly if the claim names an active lease that is not yet expired, the lifetime is in range, and
   the new expiry lies past the old one.  It then changes two columns of that row.
   */
  lemma RenewedExactly(run: seq<State>, ops: seq<Op>, i: nat)
    requires IsRun(run, ops) && i < |ops| && ops[i].OpRenew?
    ensures var before, after, c, ttl, now := run[i].leases, run[i + 1].leases, ops[i].c, ops[i].ttl, ops[i].now;
            if Names(before, c) && before[c.id].status == Active && ops[i].checkNow < before[c.id].expiresAt < now + ttl
              && MIN_TTL_SECONDS <= ttl <= MAX_TTL_SECONDS
            then after == before[c.id := before[c.id].(renewedAt := now, expiresAt := now + ttl)]
            else after == before
  {
    RunKeeps(run, ops, i);
    assert Stepped(run, ops, i);
    RowInRun(run, ops, i, ops[i].c.id);
    RenewOutcome(run[i].leases, ops[i].c, ops[i].ttl, ops[i].checkNow, ops[i].now);
    hide Renew, Names, Inv;
  }

  lemma ReleaseOutcome(leases: LeaseTable, c: Claim, reason: string, now: int)
    requires c.id in leases ==> Intact(leases[c.id]) && leases[c.id].acquiredAt <= now
    ensures var result := Release(leases, c, reason, now);
            && (result.Ok? <==> Names(leases, c) && ValidReason(reason)
                                && (leases[c.id].status == Active
                                    || (leases[c.id].status.Released? && leases[c.id].status.reason == reason)))
            && (result.Ok? ==> result.value == if leases[c.id].status == Active
                  then leases[c.id := leases[c.id].(status := Released(now, reason))] else leases)
  {
    hide ValidReason, Intact;
    assert c.id in leases ==> Intact(leases[c.id]);
  }

  /**
   A release with an allowed reason ends exactly an active lease that the claim names, expired or not, and stays without
   effect on a released or expired one; it succeeds then exactly if the lease was released for the same reason.
   */
  lemma ReleasedExactly(run: seq<State>, ops: seq<Op>, i: nat)
    requires IsRun(run, ops) && i < |ops| && ops[i].OpRelease?
    ensures var before, after, c, reason := run[i].leases, run[i + 1].leases, ops[i].c, ops[i].reason;
            if Names(before, c) && before[c.id].status == Active && ValidReason(reason)
            then after == before[c.id := before[c.id].(status := Released(ops[i].now, reason))]
            else after == before
    ensures var before, c, reason := run[i].leases, ops[i].c, ops[i].reason;
            Release(before, c, reason, ops[i].now).Ok? <==>
              && Names(before, c) && ValidReason(reason)
              && (before[c.id].status == Active
                  || (before[c.id].status.Released? && before[c.id].status.reason == reason))
  {
    RunKeeps(run, ops, i);
    assert Stepped(run, ops, i);
    RowInRun(run, ops, i, ops[i].c.id);
    ReleaseOutcome(run[i].leases, ops[i].c, ops[i].reason, ops[i].now);
    hide Release, ValidReason, Names, Inv;
  }

  /** An expiry ends exactly an active lease that the claim names; repeated on an expired one it succeeds unchanged. */
  lemma ExpiredExactly(run: seq<State>, ops: seq<Op>, i: nat)
    requires IsRun(run, ops) && i < |ops| && ops[i].OpExpire?
    ensures var before, after, c := run[i].leases, run[i + 1].leases, ops[i].c;
            if Names(before, c) && before[c.id].status == Active
            then after == before[c.id := before[c.id].(status := Expired)]
            else after == before
    ensures var before, c := run[i].leases, ops[i].c;
            Expire(before, c).Ok? <==> Names(before, c) && !before[c.id].status.Released?
  {
    RunKeeps(run, ops, i);
    assert Stepped(run, ops, i);
    var c := ops[i].c;
    assert c.id in run[i].leases ==> Intact(run[i].leases[c.id]);
  }

  /** Expiring what is due ends exactly the active leases whose expiry is not past the given instant. */
  lemma DueExpiredExactly(run: seq<State>, ops: seq<Op>, i: nat, id: LeaseId)
    requires IsRun(run, ops) && i < |ops| && ops[i].OpExpireDue? && id in run[i].leases
    ensures run[i + 1].leases.Keys == run[i].leases.Keys
    ensures var before, after := run[i].leases[id], run[i + 1].leases[id];
            if before.status == Active && before.expiresAt <= ops[i].due
            then after == before.(status := Expired)
            else after == before
  {
    RunKeeps(run, ops, i);
    assert Stepped(run, ops, i);
    assert forall x | x in run[i].leases :: Intact(run[i].leases[x]);
    assert AllIntact(run[i].leases, DueIds(run[i].leases, ops[i].due));
  }

  // ---------------------------------------------------------------- every limit can be used in full

  function Name(i: nat): string {
    seq(i, _ => 'x')
  }

  function FirstNames(n: nat): (names: set<string>)
    ensures |names| == n
    ensures forall name | name in names :: |name| < n
  {
    if n == 0 then {} else FirstNames(n - 1) + {Name(n - 1)}
  }

  const AGENT := "agent"

  function OneAgent(limit: int): Catalog {
    Catalog("source", 1, "hash", None, [Policy(AGENT, limit)])
  }

  function Policies(limit: int): Projection {
    Projection(map["source" := SourceRow(1, "hash", None, 0)],
               map[AGENT := RowOf(OneAgent(limit), Policy(AGENT, limit), 0)])
  }

  function ReserveNext(i: nat): ReserveCall {
    ReserveCall(Name(i), 1, AGENT, "profile", "host", Some(Name(i)), 60, 0, 0, Name(i))
  }

  /** One job per lease, each with its own worktree. */
  function Jobs(limit: nat): Registry {
    Registry(map name | name in FirstNames(limit) :: Job(AGENT, Some("profile"), 1, map["host" := name]), {AGENT},
             {"profile"})
  }

  function FilledRow(limit: nat, name: string): Lease {
    Lease(name, 1, AGENT, "profile", "host", name, ResourceKey("host", name),
          PolicyId(AGENT, "hash", limit, "source", 1), limit, Active, 0, 0, 60)
  }

  /** The state after the first `n` reserves. */
  function Filled(limit: nat, n: nat): State {
    State(0, Jobs(limit), map[AGENT := true], Policies(limit),
          map name | name in FirstNames(n) :: FilledRow(limit, name))
  }

  function Start(limit: nat): State {
    State(0, Jobs(limit), map[AGENT := true], Projection(map[], map[]), map[])
  }

  lemma {:induction false} NameAmongFirst(i: nat, n: nat)
    requires i < n
    ensures Name(i) in FirstNames(n)
  {
    if i < n - 1 {
      NameAmongFirst(i, n - 1);
    }
  }

  lemma FirstCatalogFits(limit: nat)
    requires ValidLimit(limit)
    ensures SyncRefusal(Projection(map[], map[]), map[AGENT := true], {}, OneAgent(limit)).None?
  {
    var c, none: map<AgentId, PolicyRow> := OneAgent(limit), map[];
    assert CatalogAgents(c.policies) == {AGENT} by { assert c.policies[0].agent == AGENT; }
    assert OldIds(none, "source") == {};
    assert none.Keys == {};
    assert Insertable(c.policies);
  }

  lemma FirstRows(limit: nat)
    ensures SyncedRows(Projection(map[], map[]), OneAgent(limit), None, 0) == Policies(limit)
  {
    var c, none: map<AgentId, PolicyRow> := OneAgent(limit), map[];
    assert Inserted(c, 0, 0) == map[];
    assert Inserted(c, 1, 0) == map[AGENT := RowOf(c, c.policies[0], 0)];
    assert NotOwnedBy(none, "source") == map[];
  }

  lemma FirstSync(limit: nat)
    requires ValidLimit(limit)
    ensures After(Start(limit), OpSync(OneAgent(limit), None, 0)) == Filled(limit, 0)
  {
    FirstCatalogFits(limit);
    FirstRows(limit);
    hide SyncRefusal, SyncedRows, Policies, OneAgent;
    assert ActivePolicyIds(Start(limit).leases) == {};
    assert Filled(limit, 0).leases == map[];
  }

  lemma FilledSound(limit: nat, n: nat)
    requires n < limit
    ensures AttemptsUnique(Filled(limit, n).leases) && RowsSound(Filled(limit, n).leases)
  {
  }

  lemma NextGrantable(limit: nat, n: nat)
    requires n < limit
    ensures Grantable(Filled(limit, n), ReserveNext(n))
  {
    var s, r := Filled(limit, n), ReserveNext(n);
    NameAmongFirst(n, limit);
    assert |Name(n)| == n;
    assert Authorized(s.reg, s.projection.policies, r);
    assert Unheld(s.leases, r);
    assert Storable(s.leases, s.reg, r);
    assert HasRoom(s.leases, s.projection.policies, r) by {
      var counted := set id | id in s.leases && s.leases[id].agent == r.agent && s.leases[id].status.Active?
                              && r.countNow < s.leases[id].expiresAt;
      assert counted == FirstNames(n);
    }
  }

  lemma FilledGrows(limit: nat, n: nat)
    ensures Filled(limit, n + 1).leases == Filled(limit, n).leases[Name(n) := FilledRow(limit, Name(n))]
  {
    hide FilledRow, Jobs, Policies;
    assert FirstNames(n + 1) == FirstNames(n) + {Name(n)};
  }

  lemma GrantIsFilledRow(limit: nat, n: nat, l: Lease)
    requires IsGrantOf(l, ReserveNext(n), Policies(limit).policies[AGENT])
    ensures l == FilledRow(limit, Name(n))
  {
  }

  lemma NextLeases(limit: nat, n: nat)
    requires n < limit
    ensures AttemptsUnique(Filled(limit, n).leases)
    ensures After(Filled(limit, n), OpReserve(ReserveNext(n))).leases == Filled(limit, n + 1).leases
  {
    FilledSound(limit, n);
    NextGrantable(limit, n);
    ReserveOutcome(Filled(limit, n), ReserveNext(n));
    FilledGrows(limit, n);
    var after := After(Filled(limit, n), OpReserve(ReserveNext(n))).leases;
    hide Grantable, RowsSound, After, AttemptsUnique, Jobs, IsGrantOf, FilledRow, FirstNames, Policies;
    GrantIsFilledRow(limit, n, after[Name(n)]);
  }

  lemma NextReserve(limit: nat, n: nat)
    requires n < limit
    ensures AttemptsUnique(Filled(limit, n).leases)
    ensures After(Filled(limit, n), OpReserve(ReserveNext(n))) == Filled(limit, n + 1)
  {
    NextLeases(limit, n);
    hide LeasesAfter, AttemptsUnique, Jobs, FirstNames, Policies;
  }

  function FillingRun(limit: nat): seq<State> {
    [Start(limit)] + seq(limit + 1, n requires n >= 0 => Filled(limit, n))
  }

  function FillingOps(limit: nat): seq<Op> {
    [OpSync(OneAgent(limit), None, 0)] + seq(limit, n requires n >= 0 => OpReserve(ReserveNext(n)))
  }

  lemma FillingStep(limit: nat, i: nat)
    requires ValidLimit(limit) && i < |FillingOps(limit)|
    ensures Stepped(FillingRun(limit), FillingOps(limit), i)
  {
    hide After, OneAgent, Jobs, FirstNames, Policies;
    if i == 0 {
      FirstSync(limit);
    } else {
      NextReserve(limit, i - 1);
    }
  }

  lemma FilledHolds(limit: nat)
    ensures LiveIds(Filled(limit, limit).leases, AGENT, 0) == FirstNames(limit)
  {
  }

  lemma FillingIsRun(limit: nat)
    requires ValidLimit(limit)
    ensures IsRun(FillingRun(limit), FillingOps(limit))
  {
    hide Filled, Stepped, ReserveNext, OneAgent;
    forall i | 0 <= i < |FillingOps(limit)|
      ensures Stepped(FillingRun(limit), FillingOps(limit), i)
    {
      FillingStep(limit, i);
    }
  }

  /** For every limit a policy may set, some run lets one agent hold that many live leases at once. */
  lemma EveryLimitIsReached(limit: nat)
    requires ValidLimit(limit)
    ensures exists run: seq<State>, ops: seq<Op> ::
              && IsRun(run, ops) && AGENT in run[|ops|].projection.policies
              && run[|ops|].projection.policies[AGENT].limit == limit
              && |LiveIds(run[|ops|].leases, AGENT, run[|ops|].clock)| == limit
  {
    var run, ops := FillingRun(limit), FillingOps(limit);
    FillingIsRun(limit);
    FilledHolds(limit);
    assert run[|ops|] == Filled(limit, limit);
    hide IsRun, FillingRun, FillingOps, FirstNames, LiveIds;
    assert AGENT in run[|ops|].projection.policies;
  }

  // ---------------------------------------------------------------- catalogues over whole runs

  predicate NoRestore(ops: seq<Op>, m: nat, n: nat)
    requires m <= n <= |ops|
  {
    forall i | m <= i < n :: !ops[i].OpRestore?
  }

  function SyncOf(s: State, op: Op): SyncCall
    requires op.OpSync?
  {
    SyncCall(op.catalog, op.path, set id | id in s.leases && s.leases[id].status == Active :: s.leases[id].policyId,
             op.now)
  }

  lemma StepAdvances(s: State, op: Op)
    requires !op.OpRestore?
    ensures Advances(s.projection, ProjectionAfter(s, op))
  {
    if op.OpSync? {
      var call := SyncOf(s, op);
      assert call.activeIds == ActivePolicyIds(s.leases);
      if SyncBy(s.projection, s.bindings, call).Ok? {
        SyncAdvances(s.projection, s.bindings, call);
      }
    }
  }

  /**
   Over any stretch of a run without a restore no source loses its row or falls to an older version, and where it stands
   twice at one version all its rows are the same both times.
   */
  lemma {:induction false} CatalogAdvances(run: seq<State>, ops: seq<Op>, m: nat, n: nat)
    requires IsRun(run, ops) && m <= n < |run| && NoRestore(ops, m, n)
    ensures Advances(run[m].projection, run[n].projection)
  {
    if m < n {
      CatalogAdvances(run, ops, m, n - 1);
      RunKeeps(run, ops, n - 1);
      assert Stepped(run, ops, n - 1);
      StepAdvances(run[n - 1], ops[n - 1]);
      AdvancesOn(run[m].projection, run[n - 1].projection, run[n].projection);
    }
  }

  /**
   A sync in a run is accepted exactly if the catalogue is neither older than the stored version nor the same version
   with another hash, covers the bindings, and spares the policies of the active leases.  It leaves exactly the
   catalogue's rows, or nothing new if they are stored already; refused, it leaves every row as it was.
   */
  lemma SyncedExactly(run: seq<State>, ops: seq<Op>, i: nat)
    requires IsRun(run, ops) && i < |ops| && ops[i].OpSync?
    ensures var p, q, call := run[i].projection, run[i + 1].projection, SyncOf(run[i], ops[i]);
            if Acceptable(p, run[i].bindings, call) && !IsStored(p, call.catalog) then Installs(p, q, call) else q == p
  {
    RunKeeps(run, ops, i);
    assert Stepped(run, ops, i);
    var call := SyncOf(run[i], ops[i]);
    assert call.activeIds == ActivePolicyIds(run[i].leases);
    SyncAccepted(run[i].projection, run[i].bindings, call);
    if SyncBy(run[i].projection, run[i].bindings, call).Ok? {
      SyncLeaves(run[i].projection, run[i].bindings, call);
    }
    hide Sync, Acceptable, Installs;
  }

  /** A catalogue older than what its source held at any earlier point since the last restore changes no row. */
  lemma OlderCatalogIsRefused(run: seq<State>, ops: seq<Op>, m: nat, i: nat)
    requires IsRun(run, ops) && m <= i < |ops| && NoRestore(ops, m, i) && ops[i].OpSync?
    requires IsOlder(run[m].projection, ops[i].catalog)
    ensures SyncBy(run[i].projection, run[i].bindings, SyncOf(run[i], ops[i])) == Err(Downgrade)
    ensures run[i + 1].projection == run[i].projection
  {
    CatalogAdvances(run, ops, m, i);
    assert AdvancesAt(run[m].projection, run[i].projection, ops[i].catalog.source);
    SyncAccepted(run[i].projection, run[i].bindings, SyncOf(run[i], ops[i]));
    SyncedExactly(run, ops, i);
  }
}
