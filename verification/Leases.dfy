/**
 Attempt leases: what reserve, renew, release, expire and expire-due do to the lease table.

 Instants are seconds.  A call reads the clock where the source does; when it reads it twice, both readings
 are parameters.  A refused call returns an error and no table.
 */
module Leases {
  import opened Text
  import opened Capacity

  type LeaseId = string
  type JobId = string

  /** `sha256:<digest>` of the canonical worktree resource. */
  datatype ResourceKey = ResourceKey(host: string, path: string)

  datatype Status = Active | Released(at: int, reason: string) | Expired

  datatype Lease = Lease(job: JobId, attempt: int, agent: AgentId, profile: string, host: string, path: string,
                         key: ResourceKey, policyId: PolicyId, limit: int, status: Status, acquiredAt: int,
                         renewedAt: int, expiresAt: int)

  type LeaseTable = map<LeaseId, Lease>

  /** A job row; `contexts` gives, per host, the worktree path of its execution context where that context validates. */
  datatype Job = Job(agent: AgentId, profile: Option<string>, attempts: int, contexts: map<string, string>)

  datatype Registry = Registry(jobs: map<JobId, Job>, agents: set<AgentId>, profiles: set<string>)

  datatype LeaseError =
    | BadTtl | BadToken | BadReason | BadLeaseId | UnknownJob | NoProfile | AttemptMismatch | AgentMismatch
      | ProfileMismatch
    | BadContext | NoPolicy | BadResource | ContextMismatch | Tampered | ConflictingReplay | DueLeaseBlocks
      | ResourceCollision
    | CapacityExhausted | UnregisteredAgent | UnknownProfile | ConstraintViolation
    | UnknownLease | JobMismatch | NotActive | LeaseExpired | NoAdvance | ReasonDiffers | AlreadyTerminal

  const MIN_TTL_SECONDS := 30
  const MAX_TTL_SECONDS := 600
  const MAX_RELEASE_REASON_LEN := 256

  predicate ValidTtl(ttl: int) {
    MIN_TTL_SECONDS <= ttl <= MAX_TTL_SECONDS
  }

  predicate ValidReason(reason: string) {
    reason != "" && reason == Strip(reason) && |reason| <= MAX_RELEASE_REASON_LEN
    && forall i | 0 <= i < |reason| :: !IsControl(reason[i])
  }

  /** The stored resource columns still agree with the stored key. */
  predicate Intact(l: Lease) {
    l.key == ResourceKey(l.host, l.path)
  }

  predicate Live(l: Lease, now: int) {
    l.status.Active? && l.expiresAt > now
  }

  function LiveIds(leases: LeaseTable, agent: AgentId, now: int): set<LeaseId> {
    set id | id in leases && leases[id].agent == agent && Live(leases[id], now)
  }

  function ActiveOn(leases: LeaseTable, key: ResourceKey): set<LeaseId> {
    set id | id in leases && leases[id].key == key && leases[id].status.Active?
  }

  function OfAttempt(leases: LeaseTable, job: JobId, attempt: int): set<LeaseId> {
    set id | id in leases && leases[id].job == job && leases[id].attempt == attempt
  }

  function ActiveIds(leases: LeaseTable): set<LeaseId> {
    set id | id in leases && leases[id].status.Active?
  }

  function ActivePolicyIds(leases: LeaseTable): set<PolicyId> {
    set id | id in leases && leases[id].status.Active? :: leases[id].policyId
  }

  predicate AllIntact(leases: LeaseTable, ids: set<LeaseId>) {
    forall id | id in ids && id in leases :: Intact(leases[id])
  }

  /**
   One reserve call.  `path` is the normalized worktree path, or None where building the resource fails;
   `now` stamps the row, `countNow` is the later reading that counts live leases; `newId` is the generated id.
   */
  datatype ReserveCall = ReserveCall(job: JobId, attempt: int, agent: AgentId, profile: string, host: string,
                                     path: Option<string>, ttl: int, now: int, countNow: int, newId: LeaseId)

  function Wanted(c: ReserveCall): ResourceKey
    requires c.path.Some?
  {
    ResourceKey(c.host, c.path.value)
  }

  function NewLease(c: ReserveCall, policy: PolicyRow): Lease
    requires c.path.Some?
  {
    Lease(c.job, c.attempt, c.agent, c.profile, c.host, c.path.value, Wanted(c), policy.id, policy.limit, Active,
          c.now, c.now, c.now + c.ttl)
  }

  predicate SameAttempt(l: Lease, c: ReserveCall, policy: PolicyRow)
    requires c.path.Some?
  {
    l.agent == c.agent && l.profile == c.profile && l.host == c.host && l.key == Wanted(c)
    && l.policyId == policy.id && l.limit == policy.limit
  }

  /** The authority checks, before any lease row is read. */
  function AuthorityRefusal(reg: Registry, policies: map<AgentId, PolicyRow>, c: ReserveCall): (e: Option<LeaseError>)
    ensures e.None? ==> c.agent in policies && c.path.Some? && ValidTtl(c.ttl) && c.attempt > 0
  {
    if !ValidTtl(c.ttl) then Some(BadTtl)
    else if c.attempt <= 0 then Some(BadToken)
    else if c.job !in reg.jobs then Some(UnknownJob)
    else
      var job := reg.jobs[c.job];
      if job.profile.None? || job.profile.value == "" then Some(NoProfile)
      else if job.attempts != c.attempt then Some(AttemptMismatch)
      else if job.agent != c.agent then Some(AgentMismatch)
      else if job.profile.value != c.profile then Some(ProfileMismatch)
      else if c.host !in job.contexts then Some(BadContext)
      else if c.agent !in policies then Some(NoPolicy)
      else if c.path.None? then Some(BadResource)
      else if c.path.value != job.contexts[c.host] then Some(ContextMismatch)
      else None
  }

  /** The checks against the lease table for a new attempt. */
  function TableRefusal(leases: LeaseTable, reg: Registry, policy: PolicyRow, c: ReserveCall): Option<LeaseError>
    requires c.path.Some?
  {
    var holders, live := ActiveOn(leases, Wanted(c)), LiveIds(leases, c.agent, c.countNow);
    if holders != {} && !AllIntact(leases, holders) then Some(Tampered)
    else if exists id :: id in holders && leases[id].expiresAt <= c.now then Some(DueLeaseBlocks)
    else if holders != {} then Some(ResourceCollision)
    else if !AllIntact(leases, live) then Some(Tampered)
    else if |live| >= policy.limit then Some(CapacityExhausted)
    else if c.agent !in reg.agents then Some(LeaseError.UnregisteredAgent)
    else if c.profile !in reg.profiles then Some(UnknownProfile)
    else if c.newId in leases then Some(ConstraintViolation)
    else None
  }

  datatype Reserved = Reserved(leases: LeaseTable, id: LeaseId, replayed: bool)

  /** At most one row carries the (job, attempt) pair, so the lookup of a replay is a function. */
  predicate AttemptsUnique(leases: LeaseTable) {
    forall a, b | a in leases && b in leases && leases[a].job == leases[b].job
      && leases[a].attempt == leases[b].attempt :: a == b
  }

  predicate ResourcesUnique(leases: LeaseTable) {
    forall a, b | a in leases && b in leases && leases[a].status.Active? && leases[b].status.Active?
                  && leases[a].key == leases[b].key :: a == b
  }

  lemma TheAttempt(leases: LeaseTable, job: JobId, attempt: int, x: LeaseId, y: LeaseId)
    requires AttemptsUnique(leases) && x in OfAttempt(leases, job, attempt) && y in OfAttempt(leases, job, attempt)
    ensures x == y
  {
  }

  function AttemptLease(leases: LeaseTable, job: JobId, attempt: int): (id: LeaseId)
    requires AttemptsUnique(leases) && OfAttempt(leases, job, attempt) != {}
    ensures id in OfAttempt(leases, job, attempt)
  {
    var ids := OfAttempt(leases, job, attempt);
    assert forall x, y | x in ids && y in ids :: x == y;
    var id :| id in ids;
    id
  }

  function Reserve(leases: LeaseTable, reg: Registry, policies: map<AgentId, PolicyRow>, c: ReserveCall)
    : Result<Reserved, LeaseError>
    requires AttemptsUnique(leases)
  {
    var refusal := AuthorityRefusal(reg, policies, c);
    if refusal.Some? then Err(refusal.value) else
    var policy := policies[c.agent];
    if OfAttempt(leases, c.job, c.attempt) != {} then
      var id := AttemptLease(leases, c.job, c.attempt);
      if !Intact(leases[id]) then Err(Tampered)
      else if !SameAttempt(leases[id], c, policy) then Err(ConflictingReplay)
      else Ok(Reserved(leases, id, true))
    else
      var blocked := TableRefusal(leases, reg, policy, c);
      if blocked.Some? then Err(blocked.value)
      else Ok(Reserved(leases[c.newId := NewLease(c, policy)], c.newId, false))
  }

  /** The identity a caller presents for an existing lease. */
  datatype Claim = Claim(id: LeaseId, job: JobId, attempt: int, agent: AgentId)

  function ClaimRefusal(leases: LeaseTable, c: Claim): (e: Option<LeaseError>)
    ensures e.None? ==> c.id in leases && c.attempt > 0
  {
    if c.id == "" then Some(BadLeaseId)
    else if c.attempt <= 0 then Some(BadToken)
    else if c.id !in leases then Some(UnknownLease)
    else if !Intact(leases[c.id]) then Some(Tampered)
    else if leases[c.id].job != c.job then Some(JobMismatch)
    else if leases[c.id].attempt != c.attempt then Some(AttemptMismatch)
    else if leases[c.id].agent != c.agent then Some(AgentMismatch)
    else None
  }

  /** `checkNow` is the reading the liveness test uses, `now` the later one the new expiry starts from. */
  function Renew(leases: LeaseTable, c: Claim, ttl: int, checkNow: int, now: int): Result<LeaseTable, LeaseError> {
    var refusal := ClaimRefusal(leases, c);
    if !ValidTtl(ttl) then Err(BadTtl)
    else if refusal.Some? then Err(refusal.value)
    else if !leases[c.id].status.Active? then Err(NotActive)
    else if leases[c.id].expiresAt <= checkNow then Err(LeaseExpired)
    else if now + ttl <= leases[c.id].expiresAt then Err(NoAdvance)
    else if now < leases[c.id].acquiredAt then Err(ConstraintViolation)
    else Ok(leases[c.id := leases[c.id].(renewedAt := now, expiresAt := now + ttl)])
  }

  function Release(leases: LeaseTable, c: Claim, reason: string, now: int): Result<LeaseTable, LeaseError> {
    var refusal := ClaimRefusal(leases, c);
    if c.id == "" then Err(BadLeaseId)
    else if !ValidReason(reason) then Err(BadReason)
    else if refusal.Some? then Err(refusal.value)
    else
      match leases[c.id].status
      case Released(_, before) => if before == reason then Ok(leases) else Err(ReasonDiffers)
      case Expired => Err(AlreadyTerminal)
      case Active =>
        if now < leases[c.id].acquiredAt then Err(ConstraintViolation)
        else Ok(leases[c.id := leases[c.id].(status := Released(now, reason))])
  }

  function Expire(leases: LeaseTable, c: Claim): Result<LeaseTable, LeaseError> {
    var refusal := ClaimRefusal(leases, c);
    if refusal.Some? then Err(refusal.value)
    else
      match leases[c.id].status
      case Expired => Ok(leases)
      case Released(_, _) => Err(AlreadyTerminal)
      case Active => Ok(leases[c.id := leases[c.id].(status := Expired)])
  }

  function DueIds(leases: LeaseTable, due: int): set<LeaseId> {
    set id | id in leases && leases[id].status.Active? && leases[id].expiresAt <= due
  }

  function WithExpired(leases: LeaseTable, ids: set<LeaseId>): LeaseTable {
    map id | id in leases :: if id in ids then leases[id].(status := Expired) else leases[id]
  }

  function ExpireDue(leases: LeaseTable, due: int): Result<LeaseTable, LeaseError> {
    if AllIntact(leases, DueIds(leases, due)) then Ok(WithExpired(leases, DueIds(leases, due))) else Err(Tampered)
  }
}
