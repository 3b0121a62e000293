/** Which executor catalogues a sync accepts, said from the rows alone, and which agents resolve and validate. */
module IdentityOutcomes {
  import opened Text
  import opened Identity
  import opened IdentityRuns

  /** The source already stands at the catalogue's version and hash. */
  predicate IsStored(t: Tables, c: Catalog) {
    c.source in t.sources && t.sources[c.source] == SourceRow(c.version, c.hash)
  }

  predicate IsNewer(t: Tables, c: Catalog) {
    c.source in t.sources ==> t.sources[c.source].version < c.version
  }

  /** No id of the catalogue belongs to another source, or stands in it twice. */
  predicate IdsFree(t: Tables, c: Catalog) {
    && (forall i | 0 <= i < |c.definitions| && c.definitions[i].id in t.definitions ::
          t.definitions[c.definitions[i].id].source == c.source)
    && (forall i | 0 <= i < |c.instances| && c.instances[i].agent in t.bindings ::
          t.bindings[c.instances[i].agent].source == c.source)
    && (forall i, j | 0 <= i < j < |c.definitions| :: c.definitions[i].id != c.definitions[j].id)
    && (forall i, j | 0 <= i < j < |c.instances| :: c.instances[i].agent != c.instances[j].agent)
  }

  /** An instance names an agent and a profile of the right type. */
  predicate Refers(t: Tables, b: Instance) {
    && b.agent in t.agents && t.agents[b.agent] == "agentd"
    && b.profile in t.profiles && t.profiles[b.profile] == "agentd"
  }

  /** Its definition is the catalogue's, or another source's. */
  predicate HasDefinition(t: Tables, c: Catalog, id: string) {
    || (exists j :: 0 <= j < |c.definitions| && c.definitions[j].id == id)
    || (id in t.definitions && t.definitions[id].source != c.source)
  }

  predicate Fits(t: Tables, c: Catalog) {
    forall i | 0 <= i < |c.instances| :: Refers(t, c.instances[i]) && HasDefinition(t, c, c.instances[i].definition)
  }

  /** No job that may still run carries a snapshot of the source. */
  predicate IsIdle(jobs: seq<Job>, source: string) {
    forall i | 0 <= i < |jobs| && (jobs[i].status == Pending || jobs[i].status == Running) && jobs[i].snapshot.Some? ::
      jobs[i].snapshot.value.body.source != source
  }

  lemma {:induction false} DefinitionsAccepted(t: Tables, c: Catalog, n: nat)
    requires n <= |c.definitions|
    ensures InsertDefinitions(t, c, n).Ok? <==>
              && (forall i | 0 <= i < n :: c.definitions[i].id !in t.definitions)
              && (forall i, j | 0 <= i < j < n :: c.definitions[i].id != c.definitions[j].id)
    ensures InsertDefinitions(t, c, n).Ok? ==> forall id :: id in InsertDefinitions(t, c, n).value.definitions <==>
              id in t.definitions || exists i :: 0 <= i < n && c.definitions[i].id == id
    ensures InsertDefinitions(t, c, n).Ok? ==> InsertDefinitions(t, c, n).value.bindings == t.bindings
  {
    if n > 0 {
      DefinitionsAccepted(t, c, n - 1);
    }
  }

  lemma {:induction false} InstancesAccepted(t: Tables, c: Catalog, n: nat)
    requires n <= |c.instances|
    ensures InsertInstances(t, c, n).Ok? <==>
              && (forall i | 0 <= i < n ::
                    c.instances[i].agent !in t.bindings && c.instances[i].definition in t.definitions)
              && (forall i, j | 0 <= i < j < n :: c.instances[i].agent != c.instances[j].agent)
    ensures InsertInstances(t, c, n).Ok? ==> forall a :: a in InsertInstances(t, c, n).value.bindings <==>
              a in t.bindings || exists i :: 0 <= i < n && c.instances[i].agent == a
    ensures InsertInstances(t, c, n).Ok? ==> InsertInstances(t, c, n).value.definitions == t.definitions
  {
    if n > 0 {
      InstancesAccepted(t, c, n - 1);
    }
  }

  lemma RewriteAccepted(t: Tables, c: Catalog)
    requires DefinitionsFree(t, c, |c.definitions|) && InstancesFree(t, c, |c.instances|)
    ensures Rewritten(t, c).Ok? <==>
              && IdsFree(t, c)
              && forall i | 0 <= i < |c.instances| :: HasDefinition(t, c, c.instances[i].definition)
  {
    var cleared := Cleared(t.(sources := t.sources[c.source := SourceRow(c.version, c.hash)]), c.source);
    assert forall id :: id in cleared.definitions <==> id in t.definitions && t.definitions[id].source != c.source;
    DefinitionsAccepted(cleared, c, |c.definitions|);
    if InsertDefinitions(cleared, c, |c.definitions|).Ok? {
      InstancesAccepted(InsertDefinitions(cleared, c, |c.definitions|).value, c, |c.instances|);
    }
  }

  lemma {:induction false} ReferenceErrors(t: Tables, c: Catalog, n: nat)
    requires n <= |c.instances|
    ensures ReferenceProblems(t, c, n) !in {Some(Downgrade), Some(HashChanged)}
  {
    if n > 0 {
      ReferenceErrors(t, c, n - 1);
    }
  }

  lemma {:induction false} InsertErrors(t: Tables, c: Catalog, m: nat, n: nat)
    requires m <= |c.definitions| && n <= |c.instances|
    ensures InsertDefinitions(t, c, m) !in {Err(Downgrade), Err(HashChanged)}
    ensures InsertInstances(t, c, n) !in {Err(Downgrade), Err(HashChanged)}
    decreases m + n
  {
    if m > 0 {
      InsertErrors(t, c, m - 1, n);
    }
    if n > 0 {
      InsertErrors(t, c, m, n - 1);
    }
  }

  lemma RewriteErrors(t: Tables, c: Catalog)
    ensures Rewritten(t, c) !in {Err(Downgrade), Err(HashChanged)}
  {
    var cleared := Cleared(t.(sources := t.sources[c.source := SourceRow(c.version, c.hash)]), c.source);
    InsertErrors(cleared, c, |c.definitions|, 0);
    if InsertDefinitions(cleared, c, |c.definitions|).Ok? {
      InsertErrors(InsertDefinitions(cleared, c, |c.definitions|).value, c, 0, |c.instances|);
    }
    hide InsertDefinitions, InsertInstances;
  }

  /**
   A sync is accepted exactly if the catalogue is the stored one, or is newer, claims no id of another source, names
   agents, profiles and definitions that exist, and no live job carries a snapshot of the source.  An older version and
   a rewritten one have their own answers.
   */
  lemma SyncAccepted(s: State, c: Catalog)
    ensures Sync(s, c).Ok? <==>
              || IsStored(s.tables, c)
              || (IsNewer(s.tables, c) && IdsFree(s.tables, c) && Fits(s.tables, c) && IsIdle(s.jobs, c.source))
    ensures Sync(s, c) == Err(Downgrade) <==>
              c.source in s.tables.sources && c.version < s.tables.sources[c.source].version
    ensures Sync(s, c) == Err(HashChanged) <==>
              c.source in s.tables.sources && c.version == s.tables.sources[c.source].version
              && c.hash != s.tables.sources[c.source].hash
  {
    var t := s.tables;
    IdleExactly(s.jobs, c.source);
    ReferencesExactly(t, c);
    if DefinitionsFree(t, c, |c.definitions|) && InstancesFree(t, c, |c.instances|) {
      RewriteAccepted(t, c);
    }
    ReferenceErrors(t, c, |c.instances|);
    RewriteErrors(t, c);
    hide Rewritten, HasInFlight, ReferenceProblems, IsIdle, HasDefinition, Refers;
  }

  lemma IdleExactly(jobs: seq<Job>, source: string)
    ensures IsIdle(jobs, source) <==> !HasInFlight(jobs, source)
  {
  }

  lemma ReferencesExactly(t: Tables, c: Catalog)
    ensures ReferenceProblems(t, c, |c.instances|).None? <==>
              forall i | 0 <= i < |c.instances| :: Refers(t, c.instances[i])
  {
    forall i | 0 <= i < |c.instances|
      ensures Refers(t, c.instances[i]) <==> ReferenceProblem(t, c.instances[i]).None?
    {
    }
  }

  /**
   After an accepted sync of something new the source's definitions and bindings are the catalogue's and no others.
   */
  lemma SyncLeaves(s: State, c: Catalog)
    requires Sync(s, c).Ok?
    ensures var t := Sync(s, c).value;
            if IsStored(s.tables, c) then t == s.tables else
              && t.sources == s.tables.sources[c.source := SourceRow(c.version, c.hash)]
              && (forall id | id in t.definitions && t.definitions[id].source == c.source ::
                    exists i :: 0 <= i < |c.definitions| && c.definitions[i].id == id)
              && (forall a | a in t.bindings && t.bindings[a].source == c.source ::
                    exists i :: 0 <= i < |c.instances| && c.instances[i].agent == a)
              && (forall i | 0 <= i < |c.definitions| ::
                    var d := c.definitions[i];
                    d.id in t.definitions
                      && t.definitions[d.id] == DefinitionRow(c.source, d.provider, d.adapter, d.capabilities))
              && (forall i | 0 <= i < |c.instances| ::
                    var b := c.instances[i];
                    b.agent in t.bindings
                      && t.bindings[b.agent] == BindingRow(c.source, b.definition, b.profile, b.enabled))
  {
    if !IsStored(s.tables, c) {
      assert Rewritten(s.tables, c) == Sync(s, c);
      RewriteMeans(s.tables, c);
      DefinitionsLeft(s.tables, c);
    }
    hide Rewritten, Sync;
  }

  lemma DefinitionsLeft(t: Tables, c: Catalog)
    requires Rewritten(t, c).Ok?
    ensures var u := Rewritten(t, c).value;
            forall id | id in u.definitions && u.definitions[id].source == c.source ::
              exists i :: 0 <= i < |c.definitions| && c.definitions[i].id == id
  {
    var cleared := Cleared(t.(sources := t.sources[c.source := SourceRow(c.version, c.hash)]), c.source);
    DefinitionsAccepted(cleared, c, |c.definitions|);
    DefinitionsInserted(cleared, c, |c.definitions|);
    InstancesAccepted(InsertDefinitions(cleared, c, |c.definitions|).value, c, |c.instances|);
  }

  /** From `t` to `u` no source lost its row or its version, and one at its old version has its old hash. */
  ghost predicate Advances(t: Tables, u: Tables) {
    forall id | id in t.sources ::
      && id in u.sources && t.sources[id].version <= u.sources[id].version
      && (t.sources[id].version == u.sources[id].version ==> u.sources[id] == t.sources[id])
  }

  lemma StepAdvances(s: System, op: Op)
    ensures Advances(s.state.tables, Next(s, op).state.tables)
  {
    if op.Syncs? && Sync(s.state, op.catalog).Ok? {
      SyncAccepted(s.state, op.catalog);
      SyncLeaves(s.state, op.catalog);
      hide Sync, IdsFree, Fits, IsIdle;
    }
  }

  /**
   Over any stretch of a run no source loses its row or falls to an older version, and no version changes its hash; so a
   catalogue older than any its source ever stood at is refused.
   */
  lemma {:induction false} VersionsNeverFall(run: seq<System>, ops: seq<Op>, m: nat, n: nat)
    requires IsRun(run, ops) && m <= n < |run|
    ensures Advances(run[m].state.tables, run[n].state.tables)
    ensures forall c: Catalog | c.source in run[m].state.tables.sources
                                && c.version < run[m].state.tables.sources[c.source].version ::
              Sync(run[n].state, c) == Err(Downgrade)
  {
    if m < n {
      hide Next, Sync;
      VersionsNeverFall(run, ops, m, n - 1);
      assert Stepped(run, ops, n - 1);
      StepAdvances(run[n - 1], ops[n - 1]);
    }
    forall c: Catalog | c.source in run[m].state.tables.sources
      && c.version < run[m].state.tables.sources[c.source].version
      ensures Sync(run[n].state, c) == Err(Downgrade)
    {
      SyncAccepted(run[n].state, c);
    }
  }

  // ---------------------------------------------------------------- which job a typed claim starts

  /**
   In every run a typed claim starts its job exactly if the job waits, or timed out recoverably, and carries what its
   agent resolves to at that moment; nothing else changes.
   */
  lemma ClaimStartsExactly(run: seq<System>, ops: seq<Op>, n: nat)
    requires IsRun(run, ops) && n < |ops| && ops[n].Claims? && ops[n].i < |run[n].state.jobs|
    ensures var s, next, job := run[n].state, run[n + 1].state, run[n].state.jobs[ops[n].i];
            if (job.status == Pending || job.status == TimedOut(true)) && job.snapshot.Some?
               && Resolve(s.tables, job.agent) == Ok(job.snapshot)
               && job.profile == job.snapshot.value.body.profile
            then next == s.(jobs := s.jobs[ops[n].i := job.(status := Running)])
            else next == s
  {
    assert Stepped(run, ops, n);
    ValidatesIsCurrent(run[n].state.tables, run[n].state.jobs[ops[n].i]);
    hide Validates;
  }
}
