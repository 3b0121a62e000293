/**
 The executor catalogue: sources, definitions and instance bindings, and the typed jobs that carry snapshots of them.

 Digests are free constructors.  A sync is one transaction; `IdentityRuns` has the submits and claims around it.
 */
module Identity {
  import opened Text

  datatype Definition = Definition(id: string, provider: string, adapter: string, capabilities: seq<string>)

  datatype Instance = Instance(agent: string, definition: string, profile: string, enabled: bool)

  /** The digest of a catalogue's canonical form, or some other text. */
  datatype Hash =
    | HashOf(source: string, version: nat, definitions: set<Definition>, instances: set<Instance>)
    | HashText(text: string)

  datatype Catalog = Catalog(source: string, version: nat, hash: Hash, definitions: seq<Definition>,
                             instances: seq<Instance>)

  datatype SourceRow = SourceRow(version: nat, hash: Hash)

  datatype DefinitionRow = DefinitionRow(source: string, provider: string, adapter: string, capabilities: seq<string>)

  datatype BindingRow = BindingRow(source: string, definition: string, profile: string, enabled: bool)

  /** Agents and runner profiles with their types. */
  datatype Tables = Tables(sources: map<string, SourceRow>, definitions: map<string, DefinitionRow>,
                           bindings: map<string, BindingRow>, agents: map<string, string>,
                           profiles: map<string, string>)

  datatype Body = Body(source: string, version: nat, hash: Hash, definition: string, instance: string, profile: string,
                       provider: string, adapter: string, capabilities: seq<string>)

  datatype BindingId = DigestOf(body: Body) | IdText(text: string)

  datatype Snapshot = Snapshot(body: Body, id: BindingId)

  datatype JobStatus = Pending | Running | TimedOut(recoverable: bool) | Done | Failed | Cancelled

  datatype Job = Job(agent: string, profile: string, status: JobStatus, snapshot: Option<Snapshot>, routed: bool)

  datatype State = State(tables: Tables, jobs: seq<Job>)

  datatype IdentityError =
    | Downgrade | HashChanged | DefinitionTaken | InstanceTaken | UnknownAgent | NotAgentd | UnknownProfile
      | NotAgentdProfile
    | InFlight | DuplicateRow | MissingDefinition
    | ProfileMismatch | ProfileGone | DefinitionGone | SourceGone | BadDigest | WrongAgent | WrongProfile | Stale

  // ---------------------------------------------------------------- resolution and validation

  /** `resolve_exact_executor_binding`: the current snapshot of an agent, None if it is untyped. */
  function Resolve(t: Tables, agent: string): Result<Option<Snapshot>, IdentityError> {
    if agent !in t.bindings || !t.bindings[agent].enabled then Ok(None)
    else
      var b := t.bindings[agent];
      if b.profile != agent then Err(ProfileMismatch)
      else if b.profile !in t.profiles then Err(ProfileGone)
      else if b.definition !in t.definitions || t.definitions[b.definition].source != b.source then Err(DefinitionGone)
      else if b.source !in t.sources then Err(SourceGone)
      else
        var d, s := t.definitions[b.definition], t.sources[b.source];
        var body := Body(b.source, s.version, s.hash, b.definition, agent, b.profile, d.provider, d.adapter,
                         d.capabilities);
        Ok(Some(Snapshot(body, DigestOf(body))))
  }

  /** `validate_stored_executor_binding`, before a claim. */
  function Validate(t: Tables, job: Job, stored: Snapshot): Option<IdentityError> {
    if stored.id != DigestOf(stored.body) then Some(BadDigest)
    else if job.agent != stored.body.instance then Some(WrongAgent)
    else if job.profile != stored.body.profile then Some(WrongProfile)
    else
      match Resolve(t, stored.body.instance)
      case Err(e) => Some(e)
      case Ok(None) => Some(Stale)
      case Ok(Some(current)) => if current.body != stored.body then Some(Stale) else None
  }

  predicate Validates(t: Tables, job: Job) {
    job.snapshot.Some? ==> Validate(t, job, job.snapshot.value).None?
  }

  // ---------------------------------------------------------------- sync

  predicate IsLive(job: Job) {
    job.status.Pending? || job.status.Running?
  }

  predicate HasInFlight(jobs: seq<Job>, source: string) {
    exists i :: 0 <= i < |jobs| && IsLive(jobs[i]) && jobs[i].snapshot.Some?
      && jobs[i].snapshot.value.body.source == source
  }

  predicate DefinitionsFree(t: Tables, c: Catalog, n: nat)
    requires n <= |c.definitions|
  {
    forall i | 0 <= i < n :: c.definitions[i].id in t.definitions ==>
      t.definitions[c.definitions[i].id].source == c.source
  }

  predicate InstancesFree(t: Tables, c: Catalog, n: nat)
    requires n <= |c.instances|
  {
    forall i | 0 <= i < n :: c.instances[i].agent in t.bindings ==> t.bindings[c.instances[i].agent].source == c.source
  }

  function ReferenceProblem(t: Tables, b: Instance): Option<IdentityError> {
    if b.agent !in t.agents then Some(UnknownAgent)
    else if t.agents[b.agent] != "agentd" then Some(NotAgentd)
    else if b.profile !in t.profiles then Some(UnknownProfile)
    else if t.profiles[b.profile] != "agentd" then Some(NotAgentdProfile)
    else None
  }

  /** The problem of the first instance that has one. */
  function ReferenceProblems(t: Tables, c: Catalog, n: nat): (e: Option<IdentityError>)
    requires n <= |c.instances|
    ensures e.None? <==> forall i | 0 <= i < n :: ReferenceProblem(t, c.instances[i]).None?
  {
    if n == 0 then None else
      var earlier := ReferenceProblems(t, c, n - 1);
      if earlier.Some? then earlier else ReferenceProblem(t, c.instances[n - 1])
  }

  /**
   What deleting a source's bindings and definitions leaves; the foreign key takes along every binding of a deleted
   definition.
   */
  function Cleared(t: Tables, source: string): Tables {
    var definitions := map id | id in t.definitions && t.definitions[id].source != source :: t.definitions[id];
    t.(definitions := definitions,
       bindings := map a | a in t.bindings && t.bindings[a].source != source
         && t.bindings[a].definition in definitions :: t.bindings[a])
  }

  function RowOf(c: Catalog, d: Definition): DefinitionRow {
    DefinitionRow(c.source, d.provider, d.adapter, d.capabilities)
  }

  function BindingOf(c: Catalog, b: Instance): BindingRow {
    BindingRow(c.source, b.definition, b.profile, b.enabled)
  }

  /** The inserts in order; a second row of a key, or a binding without its definition, fails. */
  function InsertDefinitions(t: Tables, c: Catalog, n: nat): Result<Tables, IdentityError>
    requires n <= |c.definitions|
  {
    if n == 0 then Ok(t) else
      match InsertDefinitions(t, c, n - 1)
      case Err(e) => Err(e)
      case Ok(u) =>
        var d := c.definitions[n - 1];
        if d.id in u.definitions then Err(DuplicateRow) else Ok(u.(definitions := u.definitions[d.id := RowOf(c, d)]))
  }

  function InsertInstances(t: Tables, c: Catalog, n: nat): Result<Tables, IdentityError>
    requires n <= |c.instances|
  {
    if n == 0 then Ok(t) else
      match InsertInstances(t, c, n - 1)
      case Err(e) => Err(e)
      case Ok(u) =>
        var b := c.instances[n - 1];
        if b.agent in u.bindings then Err(DuplicateRow)
        else if b.definition !in u.definitions then Err(MissingDefinition)
        else Ok(u.(bindings := u.bindings[b.agent := BindingOf(c, b)]))
  }

  function Rewritten(t: Tables, c: Catalog): Result<Tables, IdentityError> {
    var cleared := Cleared(t.(sources := t.sources[c.source := SourceRow(c.version, c.hash)]), c.source);
    match InsertDefinitions(cleared, c, |c.definitions|)
    case Err(e) => Err(e)
    case Ok(u) => InsertInstances(u, c, |c.instances|)
  }

  /**
   `sync_executor_catalog`: the new tables, or the reason nothing changed; an unchanged version and hash is a success.
   */
  function Sync(s: State, c: Catalog): Result<Tables, IdentityError> {
    var t := s.tables;
    if c.source in t.sources && c.version < t.sources[c.source].version then Err(Downgrade)
    else if c.source in t.sources && c.version == t.sources[c.source].version
      && c.hash != t.sources[c.source].hash then Err(HashChanged)
    else if c.source in t.sources && c.version == t.sources[c.source].version then Ok(t)
    else if !DefinitionsFree(t, c, |c.definitions|) then Err(DefinitionTaken)
    else if !InstancesFree(t, c, |c.instances|) then Err(InstanceTaken)
    else if ReferenceProblems(t, c, |c.instances|).Some? then Err(ReferenceProblems(t, c, |c.instances|).value)
    else if HasInFlight(s.jobs, c.source) then Err(InFlight)
    else Rewritten(t, c)
  }

  /**
   What parsing a catalogue file guarantees of the bindings: they name a definition of the same file, and their agent's
   own profile.
   */
  predicate IsParsed(c: Catalog) {
    forall i | 0 <= i < |c.instances| ::
      && (exists j :: 0 <= j < |c.definitions| && c.definitions[j].id == c.instances[i].definition)
      && c.instances[i].profile == c.instances[i].agent
  }

  // ---------------------------------------------------------------- the catalogue object

  class Registry {
    var tables: Tables
    var jobs: seq<Job>

    function Contents(): State
      reads this
    {
      State(tables, jobs)
    }

    constructor ()
      ensures Contents() == EMPTY
    {
      tables, jobs := EMPTY.tables, [];
    }

    method InFlightTypedJobs(source: string) returns (found: bool)
      ensures found == HasInFlight(jobs, source)
    {
      for i := 0 to |jobs|
        invariant !HasInFlight(jobs[..i], source)
      {
        if IsLive(jobs[i]) && jobs[i].snapshot.Some? && jobs[i].snapshot.value.body.source == source {
          return true;
        }
        assert jobs[..i + 1] == jobs[..i] + [jobs[i]];
      }
      assert jobs[..|jobs|] == jobs;
      return false;
    }

    method TakenOver(c: Catalog) returns (problem: Option<IdentityError>)
      ensures problem == if !DefinitionsFree(tables, c, |c.definitions|) then Some(DefinitionTaken)
                         else if !InstancesFree(tables, c, |c.instances|) then Some(InstanceTaken) else None
    {
      for i := 0 to |c.definitions|
        invariant DefinitionsFree(tables, c, i)
      {
        if c.definitions[i].id in tables.definitions && tables.definitions[c.definitions[i].id].source != c.source {
          return Some(DefinitionTaken);
        }
      }
      for i := 0 to |c.instances|
        invariant InstancesFree(tables, c, i)
      {
        if c.instances[i].agent in tables.bindings && tables.bindings[c.instances[i].agent].source != c.source {
          return Some(InstanceTaken);
        }
      }
      return None;
    }

    method CheckReferences(c: Catalog) returns (problem: Option<IdentityError>)
      ensures problem == ReferenceProblems(tables, c, |c.instances|)
    {
      for i := 0 to |c.instances|
        invariant ReferenceProblems(tables, c, i).None?
      {
        problem := ReferenceProblem(tables, c.instances[i]);
        if problem.Some? {
          FirstProblemStays(tables, c, i + 1, |c.instances|);
          return;
        }
      }
      return None;
    }

    /** Upsert the source, delete its rows, insert the new ones; a failed insert restores the tables. */
    method Rewrite(c: Catalog) returns (problem: Option<IdentityError>)
      modifies this
      ensures jobs == old(jobs)
      ensures match Rewritten(old(tables), c)
              case Ok(t) => problem.None? && tables == t
              case Err(e) => problem == Some(e) && tables == old(tables)
    {
      var savepoint := tables;
      tables := tables.(sources := tables.sources[c.source := SourceRow(c.version, c.hash)]);
      tables := Cleared(tables, c.source);
      ghost var cleared := tables;
      for i := 0 to |c.definitions|
        invariant jobs == old(jobs) && InsertDefinitions(cleared, c, i) == Ok(tables)
      {
        var d := c.definitions[i];
        if d.id in tables.definitions {
          tables := savepoint;
          DefinitionsStuck(cleared, c, i + 1, |c.definitions|);
          return Some(DuplicateRow);
        }
        tables := tables.(definitions := tables.definitions[d.id := RowOf(c, d)]);
      }
      ghost var defined := tables;
      for i := 0 to |c.instances|
        invariant jobs == old(jobs) && InsertInstances(defined, c, i) == Ok(tables)
      {
        var b := c.instances[i];
        if b.agent in tables.bindings || b.definition !in tables.definitions {
          problem := Some(if b.agent in tables.bindings then DuplicateRow else MissingDefinition);
          tables := savepoint;
          InstancesStuck(defined, c, i + 1, |c.instances|);
          return;
        }
        tables := tables.(bindings := tables.bindings[b.agent := BindingOf(c, b)]);
      }
      return None;
    }

    method SyncExecutorCatalog(c: Catalog) returns (problem: Option<IdentityError>)
      modifies this
      ensures jobs == old(jobs)
      ensures match Sync(old(Contents()), c)
              case Ok(t) => problem.None? && tables == t
              case Err(e) => problem == Some(e) && tables == old(tables)
    {
      if c.source in tables.sources {
        var existing := tables.sources[c.source];
        if c.version < existing.version {
          return Some(Downgrade);
        }
        if c.version == existing.version {
          return if c.hash != existing.hash then Some(HashChanged) else None;
        }
      }
      problem := TakenOver(c);
      if problem.None? {
        problem := CheckReferences(c);
      }
      if problem.None? {
        var busy := InFlightTypedJobs(c.source);
        if busy {
          return Some(InFlight);
        }
        problem := Rewrite(c);
      }
    }
  }

  const EMPTY := State(Tables(map[], map[], map[], map[], map[]), [])

  lemma {:induction false} FirstProblemStays(t: Tables, c: Catalog, m: nat, n: nat)
    requires m <= n <= |c.instances| && ReferenceProblems(t, c, m).Some?
    ensures ReferenceProblems(t, c, n) == ReferenceProblems(t, c, m)
  {
    if m < n {
      FirstProblemStays(t, c, m, n - 1);
    }
  }

  lemma {:induction false} DefinitionsStuck(t: Tables, c: Catalog, m: nat, n: nat)
    requires m <= n <= |c.definitions| && InsertDefinitions(t, c, m).Err?
    ensures InsertDefinitions(t, c, n) == InsertDefinitions(t, c, m)
  {
    if m < n {
      DefinitionsStuck(t, c, m, n - 1);
    }
  }

  lemma {:induction false} InstancesStuck(t: Tables, c: Catalog, m: nat, n: nat)
    requires m <= n <= |c.instances| && InsertInstances(t, c, m).Err?
    ensures InsertInstances(t, c, n) == InsertInstances(t, c, m)
  {
    if m < n {
      InstancesStuck(t, c, m, n - 1);
    }
  }

  // ---------------------------------------------------------------- what a sync leaves

  lemma {:induction false} DefinitionsInserted(t: Tables, c: Catalog, n: nat)
    requires n <= |c.definitions| && InsertDefinitions(t, c, n).Ok?
    ensures var u := InsertDefinitions(t, c, n).value;
            && u == t.(definitions := u.definitions)
            && (forall id | id in t.definitions :: id in u.definitions && u.definitions[id] == t.definitions[id])
            && (forall i | 0 <= i < n ::
                c.definitions[i].id in u.definitions
                  && u.definitions[c.definitions[i].id] == RowOf(c, c.definitions[i]))
            && (forall id | id in u.definitions && id !in t.definitions :: u.definitions[id].source == c.source)
  {
    if n > 0 {
      DefinitionsInserted(t, c, n - 1);
    }
  }

  lemma {:induction false} InstancesInserted(t: Tables, c: Catalog, n: nat)
    requires n <= |c.instances| && InsertInstances(t, c, n).Ok?
    ensures var u := InsertInstances(t, c, n).value;
            && u == t.(bindings := u.bindings)
            && (forall a | a in t.bindings :: a in u.bindings && u.bindings[a] == t.bindings[a])
            && (forall i | 0 <= i < n ::
                c.instances[i].agent in u.bindings && u.bindings[c.instances[i].agent] == BindingOf(c, c.instances[i]))
            && (forall a | a in u.bindings && a !in t.bindings ::
                  exists i :: 0 <= i < n && c.instances[i].agent == a && u.bindings[a] == BindingOf(c, c.instances[i]))
  {
    if n > 0 {
      InstancesInserted(t, c, n - 1);
      var before, u := InsertInstances(t, c, n - 1).value, InsertInstances(t, c, n).value;
      forall a | a in u.bindings && a !in t.bindings
        ensures exists i :: 0 <= i < n && c.instances[i].agent == a && u.bindings[a] == BindingOf(c, c.instances[i])
      {
        if a in before.bindings {
          var i :| 0 <= i < n - 1 && c.instances[i].agent == a && before.bindings[a] == BindingOf(c, c.instances[i]);
          assert u.bindings[a] == BindingOf(c, c.instances[i]);
        } else {
          assert a == c.instances[n - 1].agent;
        }
      }
    }
  }

  /** A sync that changes something: every other source's rows stay, and the source's rows become the catalogue's. */
  lemma RewriteMeans(t: Tables, c: Catalog)
    requires Rewritten(t, c).Ok?
    ensures var u := Rewritten(t, c).value;
            && u.sources == t.sources[c.source := SourceRow(c.version, c.hash)] && u.agents == t.agents
            && u.profiles == t.profiles
            && (forall id | id in t.definitions && t.definitions[id].source != c.source ::
                id in u.definitions && u.definitions[id] == t.definitions[id])
            && (forall a | a in t.bindings && t.bindings[a].source != c.source
                           && t.bindings[a].definition in t.definitions
                           && t.definitions[t.bindings[a].definition].source != c.source ::
                  a in u.bindings && u.bindings[a] == t.bindings[a])
            && (forall i | 0 <= i < |c.definitions| ::
                c.definitions[i].id in u.definitions
                  && u.definitions[c.definitions[i].id] == RowOf(c, c.definitions[i]))
            && (forall i | 0 <= i < |c.instances| ::
                c.instances[i].agent in u.bindings && u.bindings[c.instances[i].agent] == BindingOf(c, c.instances[i]))
            && (forall a | a in u.bindings && u.bindings[a].source == c.source ::
                  exists i :: 0 <= i < |c.instances| && c.instances[i].agent == a)
            && (forall a | a in u.bindings && u.bindings[a].source != c.source ::
                a in t.bindings && u.bindings[a] == t.bindings[a])
  {
    var cleared := Cleared(t.(sources := t.sources[c.source := SourceRow(c.version, c.hash)]), c.source);
    DefinitionsInserted(cleared, c, |c.definitions|);
    var mid := InsertDefinitions(cleared, c, |c.definitions|).value;
    InstancesInserted(mid, c, |c.instances|);
  }

  /** A sync changes nothing, or rewrites the source at a higher version while no live job holds a snapshot of it. */
  lemma SyncMeans(s: State, c: Catalog)
    requires Sync(s, c).Ok?
    ensures || Sync(s, c).value == s.tables
            || (Rewritten(s.tables, c) == Sync(s, c) && !HasInFlight(s.jobs, c.source)
                && (c.source in s.tables.sources ==> c.version > s.tables.sources[c.source].version))
  {
  }

  /** A source's sync leaves the resolution of every agent that another source binds exactly as it was. */
  lemma SyncSparesOthers(s: State, c: Catalog, agent: string)
    requires Sync(s, c).Ok? && Resolve(s.tables, agent).Ok? && Resolve(s.tables, agent).value.Some?
    requires Resolve(s.tables, agent).value.value.body.source != c.source
    ensures Resolve(Sync(s, c).value, agent) == Resolve(s.tables, agent)
  {
    SyncMeans(s, c);
    if Sync(s, c).value != s.tables {
      RewriteMeans(s.tables, c);
    }
  }

  // ---------------------------------------------------------------- the catalogue stays consistent

  /** Every binding has its definition in its own source, its source, and its agent's own profile. */
  predicate Consistent(t: Tables) {
    forall a | a in t.bindings ::
      var b := t.bindings[a];
      && b.definition in t.definitions && t.definitions[b.definition].source == b.source
      && b.source in t.sources && b.profile == a && a in t.profiles
  }

  /** A binding that a rewrite installed is consistent with the rows it installed beside it. */
  lemma InstalledIsConsistent(t: Tables, c: Catalog, a: string)
    requires IsParsed(c) && Rewritten(t, c).Ok? && ReferenceProblems(t, c, |c.instances|).None?
    requires a in Rewritten(t, c).value.bindings && Rewritten(t, c).value.bindings[a].source == c.source
    ensures var u := Rewritten(t, c).value; var b := u.bindings[a];
            && b.definition in u.definitions && u.definitions[b.definition].source == c.source
            && c.source in u.sources && b.profile == a && a in u.profiles
  {
    RewriteMeans(t, c);
    hide Rewritten;
    var u := Rewritten(t, c).value;
    var i :| 0 <= i < |c.instances| && c.instances[i].agent == a;
    assert u.bindings[a] == BindingOf(c, c.instances[i]);
    assert ReferenceProblem(t, c.instances[i]).None?;
    var j :| 0 <= j < |c.definitions| && c.definitions[j].id == c.instances[i].definition;
  }

  lemma SyncKeepsConsistent(s: State, c: Catalog)
    requires Consistent(s.tables) && IsParsed(c) && Sync(s, c).Ok?
    ensures Consistent(Sync(s, c).value)
  {
    SyncMeans(s, c);
    var t, u := s.tables, Sync(s, c).value;
    if u != t {
      RewriteMeans(t, c);
      assert ReferenceProblems(t, c, |c.instances|).None?;
      hide Rewritten, Sync, IsParsed;
      forall a | a in u.bindings
        ensures var b := u.bindings[a];
                && b.definition in u.definitions && u.definitions[b.definition].source == b.source
                && b.source in u.sources && b.profile == a && a in u.profiles
      {
        if u.bindings[a].source == c.source {
          InstalledIsConsistent(t, c, a);
        }
      }
    }
  }

  /**
   After any successful sync the source stands at the catalogue's version and hash, and the same sync again changes
   nothing.
   */
  lemma SyncIsIdempotent(s: State, c: Catalog)
    requires Sync(s, c).Ok?
    ensures var t := Sync(s, c).value;
            c.source in t.sources && t.sources[c.source] == SourceRow(c.version, c.hash)
              && Sync(s.(tables := t), c) == Ok(t)
  {
    SyncMeans(s, c);
    if Rewritten(s.tables, c).Ok? {
      RewriteMeans(s.tables, c);
    }
  }
}
