/**
 Runs over the executor catalogue and the jobs that carry snapshots of it.

 A submit reads the binding before it inserts its job, a claim reads whether its agent is typed before it takes one, and
 a local run reads its job before it starts it: each of these is a read whose result is kept, and a later write.  A sync
 is one transaction, and so is a typed claim with its validation.
 */
module IdentityRuns {
  import opened Text
  import opened Identity

  /** What an agent resolved to when a submit or a claim read it. */
  datatype Read = Read(agent: string, snapshot: Option<Snapshot>)

  /**
   A job picked to be started without validation: by a local run, or by the claim of an agent that read as untyped.
   */
  datatype Pick = Local(i: nat) | Untyped(i: nat, seen: JobStatus)

  /** The reads and picks of calls under way; they stay, so a call may act on one at any later time. */
  datatype System = System(state: State, held: seq<Read>, picks: seq<Pick>)

  datatype Op =
    | Syncs(catalog: Catalog)
    | Resolves(agent: string)
    | Inserts(k: nat, routed: bool)
    | Retries(i: nat)
    | Creates(profile: string, snapshot: Option<Snapshot>)
    | Claims(i: nat)
    | PicksLocal(i: nat)
    | PicksUntyped(k: nat, i: nat)
    | Begins(p: nat)
    | Reports(i: nat, status: JobStatus)
    | Cancels(i: nat)
    | Registers(agent: string, client: string)
    | AddsProfile(profile: string, runner: string)

  function SetStatus(s: State, i: nat, status: JobStatus): State
    requires i < |s.jobs|
  {
    s.(jobs := s.jobs[i := s.jobs[i].(status := status)])
  }

  /** `create_job`: a pending job of a known profile. */
  function AddJob(s: State, job: Job): State {
    if job.profile !in s.tables.profiles then s else s.(jobs := s.jobs + [job.(status := Pending)])
  }

  function Submitted(r: Read, routed: bool): Job {
    Job(r.agent, if r.snapshot.Some? then r.snapshot.value.body.profile else r.agent, Pending, r.snapshot, routed)
  }

  /** `retry_job`: the payload is copied, its snapshot included; the job goes to the agent of its profile. */
  function Retried(job: Job): Job {
    Job(job.profile, job.profile, Pending, job.snapshot, false)
  }

  predicate CanClaim(job: Job) {
    job.status.Pending? || job.status == TimedOut(true)
  }

  /** The status column knows one kind of timed-out job. */
  predicate SameStatus(a: JobStatus, b: JobStatus) {
    a == b || (a.TimedOut? && b.TimedOut?)
  }

  /** The job a pick starts now, if it does: a local run does not look at the status again, a claim compares it. */
  function Started(s: State, pick: Pick): (i: Option<nat>)
    ensures i.Some? ==> i.value < |s.jobs|
  {
    match pick
    case Local(i) => if i < |s.jobs| then Some(i) else None
    case Untyped(i, seen) => if i < |s.jobs| && SameStatus(s.jobs[i].status, seen) then Some(i) else None
  }

  /** The job a submit, a retry or a hand-written creation adds. */
  function Added(s: State, held: seq<Read>, op: Op): Option<Job> {
    match op
    case Inserts(k, routed) =>
      if k < |held| && (routed ==> held[k].snapshot.Some?) then Some(Submitted(held[k], routed)) else None
    case Retries(i) =>
      if i < |s.jobs| && s.jobs[i].status in {Failed, Cancelled} && !s.jobs[i].routed then Some(Retried(s.jobs[i]))
      else None
    case Creates(profile, snapshot) => Some(Job(profile, profile, Pending, snapshot, false))
    case _ => None
  }

  function After(s: State, held: seq<Read>, picks: seq<Pick>, op: Op): State {
    match op
    case Syncs(c) => (match Sync(s, c) case Ok(t) => s.(tables := t) case Err(_) => s)
    case Claims(i) =>
      if i < |s.jobs| && CanClaim(s.jobs[i]) && s.jobs[i].snapshot.Some? && Validates(s.tables, s.jobs[i])
      then SetStatus(s, i, Running) else s
    case Begins(p) =>
      if p < |picks| && Started(s, picks[p]).Some? then SetStatus(s, Started(s, picks[p]).value, Running) else s
    case Reports(i, status) =>
      if i < |s.jobs| && s.jobs[i].status in {Running, TimedOut(true)} && (status.TimedOut? || status in {Done, Failed})
      then SetStatus(s, i, status) else s
    case Cancels(i) =>
      if i < |s.jobs| && s.jobs[i].status !in {Done, Failed, Cancelled} then SetStatus(s, i, Cancelled) else s
    case Registers(agent, client) => s.(tables := s.tables.(agents := s.tables.agents[agent := client]))
    case AddsProfile(profile, runner) => s.(tables := s.tables.(profiles := s.tables.profiles[profile := runner]))
    case _ => if Added(s, held, op).Some? then AddJob(s, Added(s, held, op).value) else s
  }

  /** What a read keeps. */
  function ReadsAfter(s: System, op: Op): seq<Read> {
    if op.Resolves? && op.agent in s.state.tables.agents && Resolve(s.state.tables, op.agent).Ok?
    then s.held + [Read(op.agent, Resolve(s.state.tables, op.agent).value)] else s.held
  }

  function PicksAfter(s: System, op: Op): seq<Pick> {
    var t, jobs := s.state.tables, s.state.jobs;
    match op
    case PicksLocal(i) =>
      if i < |jobs| && jobs[i].status.Pending? && jobs[i].profile in t.profiles
         && t.profiles[jobs[i].profile] == "generic_subprocess"
      then s.picks + [Local(i)] else s.picks
    case PicksUntyped(k, i) =>
      if k < |s.held| && s.held[k].snapshot.None? && i < |jobs| && jobs[i].agent == s.held[k].agent && CanClaim(jobs[i])
      then s.picks + [Untyped(i, jobs[i].status)] else s.picks
    case _ => s.picks
  }

  function Next(s: System, op: Op): System {
    System(After(s.state, s.held, s.picks, op), ReadsAfter(s, op), PicksAfter(s, op))
  }

  ghost predicate IsRun(run: seq<System>, ops: seq<Op>) {
    |run| == |ops| + 1 && run[0] == System(EMPTY, [], []) && forall i | 0 <= i < |ops| :: Stepped(run, ops, i)
  }

  ghost predicate Stepped(run: seq<System>, ops: seq<Op>, i: nat)
    requires |run| == |ops| + 1 && i < |ops|
  {
    run[i + 1] == Next(run[i], ops[i])
  }

  // ---------------------------------------------------------------- what is known of a snapshot once read

  /** A job's snapshot, if it has one, is what its agent resolves to now. */
  predicate Current(t: Tables, job: Job) {
    job.snapshot.Some? ==>
      Resolve(t, job.agent) == Ok(Some(job.snapshot.value)) && job.profile == job.snapshot.value.body.profile
  }

  /** The validation before a typed claim tests exactly that. */
  lemma ValidatesIsCurrent(t: Tables, job: Job)
    ensures Validates(t, job) <==> Current(t, job)
  {
  }

  /** The source of the snapshot still stands at the version it was read at. */
  predicate SameVersion(t: Tables, x: Snapshot) {
    x.body.source in t.sources && t.sources[x.body.source].version == x.body.version
  }

  /**
   A snapshot once read names its agent; its source stays and never goes back, and at its version nothing has changed.
   */
  predicate Known(t: Tables, r: Read) {
    r.snapshot.Some? ==>
      var x := r.snapshot.value;
      && x.body.instance == r.agent && x.body.profile == r.agent
      && x.body.source in t.sources && x.body.version <= t.sources[x.body.source].version
      && (SameVersion(t, x) <==> Resolve(t, r.agent) == Ok(Some(x)))
  }

  predicate AllKnown(s: System) {
    forall k | 0 <= k < |s.held| :: Known(s.state.tables, s.held[k])
  }

  lemma SyncKeepsKnown(s: State, c: Catalog, r: Read)
    requires Known(s.tables, r) && Sync(s, c).Ok?
    ensures Known(Sync(s, c).value, r)
  {
    SyncMeans(s, c);
    if r.snapshot.Some? && Sync(s, c).value != s.tables {
      RewriteMeans(s.tables, c);
      if r.snapshot.value.body.source != c.source && SameVersion(s.tables, r.snapshot.value) {
        SyncSparesOthers(s, c, r.agent);
      }
    }
  }

  lemma ProfileKeepsKnown(t: Tables, profile: string, runner: string, r: Read)
    requires Known(t, r)
    ensures Known(t.(profiles := t.profiles[profile := runner]), r)
  {
  }

  lemma StepKeepsKnown(s: System, op: Op)
    requires AllKnown(s)
    ensures AllKnown(Next(s, op))
  {
    var next := Next(s, op);
    forall k | 0 <= k < |s.held| ensures Known(next.state.tables, s.held[k]) {
      match op
      case Syncs(c) => if Sync(s.state, c).Ok? { SyncKeepsKnown(s.state, c, s.held[k]); }
      case AddsProfile(profile, runner) => ProfileKeepsKnown(s.state.tables, profile, runner, s.held[k]);
      case _ =>
    }
  }

  lemma {:induction false} ReadsStayKnown(run: seq<System>, ops: seq<Op>, n: nat)
    requires IsRun(run, ops) && n < |run|
    ensures AllKnown(run[n])
  {
    if n > 0 {
      hide AllKnown, Next;
      ReadsStayKnown(run, ops, n - 1);
      assert Stepped(run, ops, n - 1);
      StepKeepsKnown(run[n - 1], ops[n - 1]);
    } else {
      assert run[0].held == [];
    }
  }

  // ---------------------------------------------------------------- exactly when a job is stale

  /** The job carries what a submit once read for its agent, not a snapshot written by hand. */
  predicate IsIssued(held: seq<Read>, job: Job) {
    job.profile == job.agent && Read(job.agent, job.snapshot) in held
  }

  /**
   However submits, retries, syncs and claims of any kind interleave: a job that carries an issued snapshot is current,
   and passes the validation of a typed claim, exactly if its source still stands at the snapshot's version.
   */
  lemma StaleExactly(run: seq<System>, ops: seq<Op>, n: nat, job: Job)
    requires IsRun(run, ops) && n < |run| && IsIssued(run[n].held, job) && job.snapshot.Some?
    ensures var t := run[n].state.tables;
            && (Current(t, job) <==> SameVersion(t, job.snapshot.value))
            && (Validates(t, job) <==> SameVersion(t, job.snapshot.value))
  {
    ReadsStayKnown(run, ops, n);
    ValidatesIsCurrent(run[n].state.tables, job);
    var k :| 0 <= k < |run[n].held| && run[n].held[k] == Read(job.agent, job.snapshot);
    assert Known(run[n].state.tables, run[n].held[k]);
  }

  /** No job is created by hand with a snapshot. */
  predicate NoneByHand(ops: seq<Op>) {
    forall i | 0 <= i < |ops| && ops[i].Creates? :: ops[i].snapshot.None?
  }

  predicate TypedAreIssued(s: System) {
    forall i | 0 <= i < |s.state.jobs| && s.state.jobs[i].snapshot.Some? :: IsIssued(s.held, s.state.jobs[i])
  }

  lemma StepKeepsIssued(s: System, op: Op)
    requires TypedAreIssued(s) && AllKnown(s) && (op.Creates? ==> op.snapshot.None?)
    ensures TypedAreIssued(Next(s, op))
  {
    var next := Next(s, op);
    forall i | 0 <= i < |next.state.jobs| && next.state.jobs[i].snapshot.Some?
      ensures IsIssued(next.held, next.state.jobs[i])
    {
      if i < |s.state.jobs| {
        assert next.state.jobs[i] == s.state.jobs[i].(status := next.state.jobs[i].status);
        assert IsIssued(s.held, s.state.jobs[i]);
      } else if op.Inserts? {
        assert Known(s.state.tables, s.held[op.k]);
      } else {
        assert IsIssued(s.held, s.state.jobs[op.i]);
      }
    }
  }

  /** So every typed job of a run without hand-written snapshots is an issued one. */
  lemma {:induction false} TypedJobsAreIssued(run: seq<System>, ops: seq<Op>, n: nat)
    requires IsRun(run, ops) && n < |run| && NoneByHand(ops)
    ensures TypedAreIssued(run[n])
  {
    if n > 0 {
      hide TypedAreIssued, AllKnown, Next;
      TypedJobsAreIssued(run, ops, n - 1);
      ReadsStayKnown(run, ops, n - 1);
      assert Stepped(run, ops, n - 1);
      StepKeepsIssued(run[n - 1], ops[n - 1]);
    } else {
      assert run[0].state.jobs == [];
    }
  }

  // ------------------------------------------- exactly when live jobs, or running jobs, are current

  predicate LiveCurrent(s: State) {
    forall i | 0 <= i < |s.jobs| && IsLive(s.jobs[i]) :: Current(s.tables, s.jobs[i])
  }

  predicate RunningCurrent(s: State) {
    forall i | 0 <= i < |s.jobs| && s.jobs[i].status.Running? :: Current(s.tables, s.jobs[i])
  }

  /** The job an unvalidated start sets running. */
  function Starting(s: System, op: Op): Option<Job> {
    if op.Begins? && op.p < |s.picks| && Started(s.state, s.picks[op.p]).Some?
    then Some(s.state.jobs[Started(s.state, s.picks[op.p]).value]) else None
  }

  /** The job an operation makes live without validation. */
  function Entering(s: System, op: Op): Option<Job> {
    var added := Added(s.state, s.held, op);
    if added.Some? && added.value.profile in s.state.tables.profiles then added else Starting(s, op)
  }

  predicate StartsCurrent(s: System, op: Op) {
    Starting(s, op).Some? ==> Current(s.state.tables, Starting(s, op).value)
  }

  predicate EntersCurrent(s: System, op: Op) {
    Entering(s, op).Some? ==> Current(s.state.tables, Entering(s, op).value)
  }

  /** A sync leaves a live job current: it spares the other sources, and refuses to change the job's own. */
  lemma SyncKeepsCurrent(s: State, c: Catalog, i: nat)
    requires Sync(s, c).Ok? && i < |s.jobs| && IsLive(s.jobs[i]) && Current(s.tables, s.jobs[i])
    ensures Current(Sync(s, c).value, s.jobs[i])
  {
    SyncMeans(s, c);
    if Sync(s, c).value != s.tables && s.jobs[i].snapshot.Some? {
      SyncSparesOthers(s, c, s.jobs[i].agent);
    }
  }

  lemma ProfileKeepsCurrent(t: Tables, profile: string, runner: string, job: Job)
    requires Current(t, job)
    ensures Current(t.(profiles := t.profiles[profile := runner]), job)
  {
  }

  /** What an operation leaves of a job that is live and current. */
  lemma StaysCurrent(s: System, op: Op, i: nat)
    requires i < |s.state.jobs| && IsLive(s.state.jobs[i]) && Current(s.state.tables, s.state.jobs[i])
    ensures i < |Next(s, op).state.jobs| && Current(Next(s, op).state.tables, Next(s, op).state.jobs[i])
  {
    hide Sync, Validates, Started;
    match op
    case Syncs(c) => if Sync(s.state, c).Ok? { SyncKeepsCurrent(s.state, c, i); }
    case AddsProfile(profile, runner) => ProfileKeepsCurrent(s.state.tables, profile, runner, s.state.jobs[i]);
    case _ =>
  }

  /** A job live or running after an operation was so before and current if it was, or has just been checked. */
  lemma StepKeepsLive(s: System, op: Op)
    requires LiveCurrent(s.state) && EntersCurrent(s, op)
    ensures LiveCurrent(Next(s, op).state)
  {
    var next := Next(s, op).state;
    forall i | 0 <= i < |next.jobs| && IsLive(next.jobs[i]) ensures Current(next.tables, next.jobs[i]) {
      if i < |s.state.jobs| && IsLive(s.state.jobs[i]) {
        StaysCurrent(s, op, i);
      } else if op.Claims? {
        ValidatesIsCurrent(s.state.tables, s.state.jobs[i]);
      }
    }
  }

  lemma StepKeepsRunning(s: System, op: Op)
    requires RunningCurrent(s.state) && StartsCurrent(s, op)
    ensures RunningCurrent(Next(s, op).state)
  {
    var next := Next(s, op).state;
    forall i | 0 <= i < |next.jobs| && next.jobs[i].status.Running? ensures Current(next.tables, next.jobs[i]) {
      if i < |s.state.jobs| && s.state.jobs[i].status.Running? {
        StaysCurrent(s, op, i);
      } else if op.Claims? {
        ValidatesIsCurrent(s.state.tables, s.state.jobs[i]);
      }
    }
  }

  lemma StaleEntry(s: System, op: Op)
    requires !EntersCurrent(s, op)
    ensures !LiveCurrent(Next(s, op).state)
  {
    var next, job := Next(s, op).state, Entering(s, op).value;
    if op.Begins? {
      var i := Started(s.state, s.picks[op.p]).value;
      assert IsLive(next.jobs[i]) && !Current(next.tables, next.jobs[i]);
    } else {
      var i := |s.state.jobs|;
      assert IsLive(next.jobs[i]) && !Current(next.tables, next.jobs[i]);
    }
  }

  lemma StaleStart(s: System, op: Op)
    requires !StartsCurrent(s, op)
    ensures !RunningCurrent(Next(s, op).state)
  {
    var next, i := Next(s, op).state, Started(s.state, s.picks[op.p]).value;
    assert next.jobs[i].status.Running? && !Current(next.tables, next.jobs[i]);
  }

  ghost predicate AllEnterCurrent(run: seq<System>, ops: seq<Op>, n: nat)
    requires n <= |ops| <= |run|
  {
    forall k | 0 <= k < n :: EntersCurrent(run[k], ops[k])
  }

  ghost predicate AllStartCurrent(run: seq<System>, ops: seq<Op>, n: nat)
    requires n <= |ops| <= |run|
  {
    forall k | 0 <= k < n :: StartsCurrent(run[k], ops[k])
  }

  ghost predicate AlwaysLiveCurrent(run: seq<System>, n: nat)
    requires n < |run|
  {
    forall k | 0 <= k <= n :: LiveCurrent(run[k].state)
  }

  ghost predicate AlwaysRunningCurrent(run: seq<System>, n: nat)
    requires n < |run|
  {
    forall k | 0 <= k <= n :: RunningCurrent(run[k].state)
  }

  /**
   The pending and running jobs carry their agents' current resolutions throughout a run exactly if every submit, retry,
   hand-written job and unvalidated start of it finds its snapshot current at that moment: no sync ever makes a live job
   stale.
   */
  lemma {:induction false} LiveExactly(run: seq<System>, ops: seq<Op>, n: nat)
    requires IsRun(run, ops) && n < |run|
    ensures AlwaysLiveCurrent(run, n) <==> AllEnterCurrent(run, ops, n)
  {
    hide LiveCurrent, EntersCurrent, Next;
    if n > 0 {
      LiveExactly(run, ops, n - 1);
      assert Stepped(run, ops, n - 1);
      if LiveCurrent(run[n - 1].state) && EntersCurrent(run[n - 1], ops[n - 1]) {
        StepKeepsLive(run[n - 1], ops[n - 1]);
      } else if !EntersCurrent(run[n - 1], ops[n - 1]) {
        StaleEntry(run[n - 1], ops[n - 1]);
      }
    } else {
      NoJobs();
    }
  }

  /** The running ones alone do so exactly if every unvalidated start does, however submits and retries go stale. */
  lemma {:induction false} RunningExactly(run: seq<System>, ops: seq<Op>, n: nat)
    requires IsRun(run, ops) && n < |run|
    ensures AlwaysRunningCurrent(run, n) <==> AllStartCurrent(run, ops, n)
  {
    hide RunningCurrent, StartsCurrent, Next;
    if n > 0 {
      RunningExactly(run, ops, n - 1);
      assert Stepped(run, ops, n - 1);
      if RunningCurrent(run[n - 1].state) && StartsCurrent(run[n - 1], ops[n - 1]) {
        StepKeepsRunning(run[n - 1], ops[n - 1]);
      } else if !StartsCurrent(run[n - 1], ops[n - 1]) {
        StaleStart(run[n - 1], ops[n - 1]);
      }
    } else {
      NoJobs();
    }
  }

  lemma NoJobs()
    ensures LiveCurrent(EMPTY) && RunningCurrent(EMPTY)
  {
  }

  /**
   A submit inserts what its agent resolves to at that moment; no typed job is retried, written by hand or started
   unvalidated.
   */
  predicate Atomic(s: System, op: Op) {
    if op.Inserts? then op.k < |s.held| ==> Resolve(s.state.tables, s.held[op.k].agent) == Ok(s.held[op.k].snapshot)
    else Entering(s, op).Some? ==> Entering(s, op).value.snapshot.None?
  }

  lemma AtomicEntersCurrent(s: System, op: Op)
    requires Atomic(s, op)
    ensures EntersCurrent(s, op)
  {
  }

  /**
   With submits in one transaction and every typed job claimed with validation, live jobs are current and validate.
   */
  lemma StoredBindingsStayCurrent(run: seq<System>, ops: seq<Op>, n: nat)
    requires IsRun(run, ops) && n < |run| && forall k | 0 <= k < n :: Atomic(run[k], ops[k])
    ensures var s := run[n].state;
            LiveCurrent(s) && forall i | 0 <= i < |s.jobs| && IsLive(s.jobs[i]) :: Validates(s.tables, s.jobs[i])
  {
    forall k | 0 <= k < n ensures EntersCurrent(run[k], ops[k]) {
      AtomicEntersCurrent(run[k], ops[k]);
    }
    LiveExactly(run, ops, n);
    var s := run[n].state;
    assert LiveCurrent(s);
    forall i | 0 <= i < |s.jobs| && IsLive(s.jobs[i]) ensures Validates(s.tables, s.jobs[i]) {
      ValidatesIsCurrent(s.tables, s.jobs[i]);
    }
  }

  // ---------------------------------------------------------------- resolution over runs

  /** With parsed catalogues, no reachable state ever fails to resolve an agent. */
  lemma {:induction false} ResolutionNeverFails(run: seq<System>, ops: seq<Op>, n: nat, agent: string)
    requires IsRun(run, ops) && n < |run| && forall i | 0 <= i < |ops| && ops[i].Syncs? :: IsParsed(ops[i].catalog)
    ensures Consistent(run[n].state.tables) && Resolve(run[n].state.tables, agent).Ok?
    ensures var t := run[n].state.tables;
            Resolve(t, agent).value.Some? <==> agent in t.bindings && t.bindings[agent].enabled
  {
    if n > 0 {
      ResolutionNeverFails(run, ops, n - 1, agent);
      assert Stepped(run, ops, n - 1);
      var s := run[n - 1].state;
      if ops[n - 1].Syncs? && Sync(s, ops[n - 1].catalog).Ok? {
        SyncKeepsConsistent(s, ops[n - 1].catalog);
      }
    }
  }
}
