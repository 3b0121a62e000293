/** How a live typed job comes to carry a stale snapshot: the steps that `IdentityRuns` characterizes, one by one. */
module IdentityCases {
  import opened Text
  import opened Identity
  import opened IdentityRuns

  /** A sync that changes a source makes every issued snapshot of it stale. */
  lemma BumpIsStale(s: State, c: Catalog, job: Job)
    requires Sync(s, c).Ok? && Sync(s, c).value != s.tables && job.snapshot.Some?
    requires job.snapshot.value.body.source == c.source && c.source in s.tables.sources
    requires job.snapshot.value.body.version <= s.tables.sources[c.source].version
    ensures !Current(Sync(s, c).value, job)
  {
    SyncMeans(s, c);
    RewriteMeans(s.tables, c);
  }

  /**
   A submit that resolves first and inserts its job after a sync of that source leaves a pending job that is stale, and
   that no typed claim takes.
   */
  lemma SplitSubmitGoesStale(s: System, c: Catalog, k: nat)
    requires k < |s.held| && Known(s.state.tables, s.held[k]) && s.held[k].snapshot.Some?
    requires Sync(s.state, c).Ok? && Sync(s.state, c).value != s.state.tables
    requires s.held[k].snapshot.value.body.source == c.source && s.held[k].agent in s.state.tables.profiles
    ensures var t, i := Next(Next(s, Syncs(c)), Inserts(k, false)), |s.state.jobs|;
            && i < |t.state.jobs| && t.state.jobs[i].status.Pending? && !Current(t.state.tables, t.state.jobs[i])
            && Next(t, Claims(i)) == t
  {
    var u := Next(s, Syncs(c));
    var job := Submitted(s.held[k], false);
    SyncMeans(s.state, c);
    RewriteMeans(s.state.tables, c);
    BumpIsStale(s.state, c, job);
    hide Sync;
    var t := Next(u, Inserts(k, false));
    assert t.state.jobs[|s.state.jobs|] == job;
    ValidatesIsCurrent(t.state.tables, job);
  }

  /** A retry copies the snapshot of the failed job it repeats: after a sync of that source the new job is stale. */
  lemma RetryGoesStale(s: System, c: Catalog, i: nat)
    requires i < |s.state.jobs| && s.state.jobs[i].status.Failed? && !s.state.jobs[i].routed
    requires IsIssued(s.held, s.state.jobs[i]) && AllKnown(s) && s.state.jobs[i].snapshot.Some?
    requires Sync(s.state, c).Ok? && Sync(s.state, c).value != s.state.tables
    requires s.state.jobs[i].snapshot.value.body.source == c.source
    requires s.state.jobs[i].profile in s.state.tables.profiles
    ensures var t, j := Next(Next(s, Syncs(c)), Retries(i)), |s.state.jobs|;
            && j < |t.state.jobs| && t.state.jobs[j].status.Pending? && !Current(t.state.tables, t.state.jobs[j])
  {
    var u := Next(s, Syncs(c));
    var job := Retried(s.state.jobs[i]);
    var k :| 0 <= k < |s.held| && s.held[k] == Read(s.state.jobs[i].agent, s.state.jobs[i].snapshot);
    assert Known(s.state.tables, s.held[k]);
    SyncMeans(s.state, c);
    RewriteMeans(s.state.tables, c);
    BumpIsStale(s.state, c, job);
    hide Sync;
    assert Next(u, Retries(i)).state.jobs[|s.state.jobs|] == job;
  }

  // ---------------------------------------------------------------- a disabled agent runs a stale job

  const DEFINED := Definition("d", "p", "x", [])

  function CatalogAt(version: nat, enabled: bool): Catalog {
    Catalog("src", version, HashText("h"), [DEFINED], [Instance("a", "d", "a", enabled)])
  }

  /** The tables after the agent, its profile and one version of the catalogue. */
  function TablesAt(version: nat, enabled: bool): Tables {
    Tables(map["src" := SourceRow(version, HashText("h"))], map["d" := DefinitionRow("src", "p", "x", [])],
           map["a" := BindingRow("src", "d", "a", enabled)], map["a" := "agentd"], map["a" := "agentd"])
  }

  const BEFORE := Tables(map[], map[], map[], map["a" := "agentd"], map["a" := "agentd"])

  lemma InsertsOne(t: Tables, version: nat, enabled: bool)
    requires t.definitions == map[] && t.bindings == map[]
    requires t.sources == map["src" := SourceRow(version, HashText("h"))]
    requires t.agents == map["a" := "agentd"] && t.profiles == map["a" := "agentd"]
    ensures var c := CatalogAt(version, enabled);
            InsertDefinitions(t, c, 1).Ok?
              && InsertInstances(InsertDefinitions(t, c, 1).value, c, 1) == Ok(TablesAt(version, enabled))
  {
    var c := CatalogAt(version, enabled);
    assert InsertDefinitions(t, c, 0) == Ok(t);
    var u := InsertDefinitions(t, c, 1).value;
    assert u.definitions == map["d" := DefinitionRow("src", "p", "x", [])];
    assert InsertInstances(u, c, 0) == Ok(u);
    assert InsertInstances(u, c, 1).value.bindings == map["a" := BindingRow("src", "d", "a", enabled)];
  }

  lemma Rewrites(t: Tables, version: nat, enabled: bool)
    requires t == BEFORE || exists v: nat, e :: t == TablesAt(v, e)
    ensures Rewritten(t, CatalogAt(version, enabled)) == Ok(TablesAt(version, enabled))
  {
    var c := CatalogAt(version, enabled);
    var cleared := Cleared(t.(sources := t.sources["src" := SourceRow(c.version, c.hash)]), "src");
    assert cleared.definitions == map[] && cleared.bindings == map[];
    assert cleared.sources == map["src" := SourceRow(version, HashText("h"))];
    InsertsOne(cleared, version, enabled);
  }

  lemma SyncsTo(s: State, version: nat, enabled: bool)
    requires s.tables == BEFORE || (exists v: nat, e :: v < version && s.tables == TablesAt(v, e))
    requires !HasInFlight(s.jobs, "src")
    ensures Sync(s, CatalogAt(version, enabled)) == Ok(TablesAt(version, enabled))
  {
    var c := CatalogAt(version, enabled);
    Rewrites(s.tables, version, enabled);
    assert ReferenceProblem(s.tables, c.instances[0]).None?;
    assert ReferenceProblems(s.tables, c, 0).None?;
    hide Rewritten;
  }

  const BODY := Body("src", 1, HashText("h"), "d", "a", "a", "p", "x", [])
  const SNAPSHOT := Snapshot(BODY, DigestOf(BODY))

  function JobIn(status: JobStatus): Job {
    Job("a", "a", status, Some(SNAPSHOT), false)
  }

  const TYPED := Read("a", Some(SNAPSHOT))
  const UNTYPED := Read("a", None)

  /**
   The run: registered, synced, submitted, claimed, timed out, disabled by the next version, read as untyped, taken.
   */
  const OPS := [
    Registers("a", "agentd"), AddsProfile("a", "agentd"), Syncs(CatalogAt(1, true)), Resolves("a"), Inserts(0, false),
    Claims(0), Reports(0, TimedOut(true)), Syncs(CatalogAt(2, false)), Resolves("a"), PicksUntyped(1, 0), Begins(0)
  ]

  const RUN := [
    System(EMPTY, [], []),
    System(State(Tables(map[], map[], map[], map["a" := "agentd"], map[]), []), [], []),
    System(State(BEFORE, []), [], []),
    System(State(TablesAt(1, true), []), [], []),
    System(State(TablesAt(1, true), []), [TYPED], []),
    System(State(TablesAt(1, true), [JobIn(Pending)]), [TYPED], []),
    System(State(TablesAt(1, true), [JobIn(Running)]), [TYPED], []),
    System(State(TablesAt(1, true), [JobIn(TimedOut(true))]), [TYPED], []),
    System(State(TablesAt(2, false), [JobIn(TimedOut(true))]), [TYPED], []),
    System(State(TablesAt(2, false), [JobIn(TimedOut(true))]), [TYPED, UNTYPED], []),
    System(State(TablesAt(2, false), [JobIn(TimedOut(true))]), [TYPED, UNTYPED], [Untyped(0, TimedOut(true))]),
    System(State(TablesAt(2, false), [JobIn(Running)]), [TYPED, UNTYPED], [Untyped(0, TimedOut(true))])
  ]

  lemma FirstSteps()
    ensures Next(RUN[0], OPS[0]) == RUN[1] && Next(RUN[1], OPS[1]) == RUN[2]
  {
  }

  lemma FirstSync()
    ensures Next(RUN[2], OPS[2]) == RUN[3]
  {
    SyncsTo(RUN[2].state, 1, true);
    hide Sync;
  }

  lemma TypedResolves()
    ensures Resolve(TablesAt(1, true), "a") == Ok(Some(SNAPSHOT)) && Resolve(TablesAt(2, false), "a") == Ok(None)
  {
  }

  lemma SubmitSteps()
    ensures Next(RUN[3], OPS[3]) == RUN[4] && Next(RUN[4], OPS[4]) == RUN[5]
  {
    TypedResolves();
    hide Resolve;
  }

  lemma ClaimSteps()
    ensures Next(RUN[5], OPS[5]) == RUN[6] && Next(RUN[6], OPS[6]) == RUN[7]
  {
    TypedResolves();
    hide Resolve;
    assert Validates(TablesAt(1, true), JobIn(Pending));
  }

  lemma SecondSync()
    ensures Next(RUN[7], OPS[7]) == RUN[8]
  {
    assert !HasInFlight(RUN[7].state.jobs, "src");
    SyncsTo(RUN[7].state, 2, false);
    hide Sync;
  }

  lemma LastSteps()
    ensures Next(RUN[8], OPS[8]) == RUN[9] && Next(RUN[9], OPS[9]) == RUN[10] && Next(RUN[10], OPS[10]) == RUN[11]
  {
    TypedResolves();
    hide Resolve;
  }

  /**
   With every submit atomic: a job times out, the next version of its source disables its agent, and the agent, now
   untyped, takes the job again without validation.  The running job's snapshot is stale.
   */
  lemma DisabledAgentRunsStaleJob()
    ensures IsRun(RUN, OPS) && forall k | 0 <= k < |OPS| && OPS[k].Inserts? :: Atomic(RUN[k], OPS[k])
    ensures var s := RUN[11].state;
              s.jobs[0].status.Running? && s.jobs[0].snapshot.Some? && !Current(s.tables, s.jobs[0])
  {
    hide Next;
    FirstSteps();
    FirstSync();
    SubmitSteps();
    ClaimSteps();
    SecondSync();
    LastSteps();
    TypedResolves();
    forall i | 0 <= i < |OPS| ensures Stepped(RUN, OPS, i) {
    }
  }
}
