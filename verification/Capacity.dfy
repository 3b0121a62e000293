/**
 Capacity catalogue projection: what one sync, one capture and one restore do to the source and policy rows.

 Rows live in maps keyed by the tables' primary keys.  A digest is the value it was computed from
 (a free constructor), which is SHA-256 taken as injective.  A failed call returns an error and no rows,
 because its transaction rolls back.
 */
module Capacity {
  import opened Text

  type AgentId = string
  type SourceId = string

  /** `sha256:<digest>` of the canonical policy object. */
  datatype PolicyId = PolicyId(agent: AgentId, hash: string, limit: int, source: SourceId, version: int)

  datatype Policy = Policy(agent: AgentId, limit: int)

  datatype Catalog = Catalog(source: SourceId, version: int, hash: string, path: Option<string>, policies: seq<Policy>)

  datatype SourceRow = SourceRow(version: int, hash: string, path: Option<string>, updatedAt: int)

  datatype PolicyRow = PolicyRow(source: SourceId, version: int, hash: string, id: PolicyId, limit: int, createdAt: int,
                                 updatedAt: int)

  datatype Projection = Projection(sources: map<SourceId, SourceRow>, policies: map<AgentId, PolicyRow>)

  /** Typed executor bindings: the agents that have one, and whether it is enabled. */
  type Bindings = map<AgentId, bool>

  datatype CapacityError =
    | Downgrade | HashWithoutBump | UnknownAgent | OwnedElsewhere | CoverageGap | BlockedByLease | Constraint
    | InvalidLabel | InvalidProjection | InvalidSnapshot | ActiveLeases | MultiSourceV1 | WitnessMismatch

  const MAX_CONCURRENT_JOBS := 32
  const MAX_SOURCE_PATH_LEN := 4096

  predicate ValidLimit(limit: int) {
    1 <= limit <= MAX_CONCURRENT_JOBS
  }

  predicate ValidSourcePath(path: Option<string>) {
    path.Some? ==> |path.value| <= MAX_SOURCE_PATH_LEN && forall i | 0 <= i < |path.value| :: !IsCc(path.value[i])
  }

  /** The table constraints on a list of policies: one row per agent, every limit in range. */
  predicate Insertable(policies: seq<Policy>) {
    Distinct(policies) && forall i | 0 <= i < |policies| :: ValidLimit(policies[i].limit)
  }

  function CatalogAgents(policies: seq<Policy>): set<AgentId> {
    set i | 0 <= i < |policies| :: policies[i].agent
  }

  predicate Distinct(policies: seq<Policy>) {
    forall i, j | 0 <= i < j < |policies| :: policies[i].agent != policies[j].agent
  }

  /** One more policy keeps a prefix acceptable exactly when its agent is new and its limit is in range. */
  lemma PrefixGrows(policies: seq<Policy>, i: nat)
    requires i < |policies| && Insertable(policies[..i])
    ensures Insertable(policies[..i + 1]) <==>
              policies[i].agent !in CatalogAgents(policies[..i]) && ValidLimit(policies[i].limit)
    ensures CatalogAgents(policies[..i + 1]) == CatalogAgents(policies[..i]) + {policies[i].agent}
    ensures Insertable(policies) ==> Insertable(policies[..i + 1])
  {
    var a, b := policies[..i], policies[..i + 1];
    assert b == a + [policies[i]];
    if policies[i].agent in CatalogAgents(a) {
      var j :| 0 <= j < i && a[j].agent == policies[i].agent;
      assert b[j].agent == b[i].agent;
    } else {
      assert forall j | 0 <= j < i :: a[j].agent in CatalogAgents(a);
    }
    assert ValidLimit(b[i].limit) == ValidLimit(policies[i].limit);
  }

  function IdOf(c: Catalog, p: Policy): PolicyId {
    PolicyId(p.agent, c.hash, p.limit, c.source, c.version)
  }

  function RowOf(c: Catalog, p: Policy, now: int): PolicyRow {
    PolicyRow(c.source, c.version, c.hash, IdOf(c, p), p.limit, now, now)
  }

  /** The rows that inserting the first `n` policies of the catalogue adds. */
  function Inserted(c: Catalog, n: nat, now: int): (rows: map<AgentId, PolicyRow>)
    requires n <= |c.policies|
    ensures rows.Keys == CatalogAgents(c.policies[..n])
  {
    if n == 0 then map[] else
      assert c.policies[..n] == c.policies[..n - 1] + [c.policies[n - 1]];
      Inserted(c, n - 1, now)[c.policies[n - 1].agent := RowOf(c, c.policies[n - 1], now)]
  }

  lemma {:induction false} InsertedFrom(c: Catalog, n: nat, now: int, a: AgentId) returns (i: nat)
    requires n <= |c.policies| && a in Inserted(c, n, now)
    ensures i < n && c.policies[i].agent == a && Inserted(c, n, now)[a] == RowOf(c, c.policies[i], now)
  {
    if c.policies[n - 1].agent == a {
      i := n - 1;
    } else {
      i := InsertedFrom(c, n - 1, now, a);
    }
  }

  function NotOwnedBy(policies: map<AgentId, PolicyRow>, source: SourceId): map<AgentId, PolicyRow> {
    map a | a in policies && policies[a].source != source :: policies[a]
  }

  function OldIds(policies: map<AgentId, PolicyRow>, source: SourceId): set<PolicyId> {
    set a | a in policies && policies[a].source == source :: policies[a].id
  }

  function NewIds(c: Catalog): set<PolicyId> {
    set i | 0 <= i < |c.policies| :: IdOf(c, c.policies[i])
  }

  function EffectivePath(c: Catalog, path: Option<string>): Option<string> {
    if path.Some? && path.value != "" then path else c.path
  }

  predicate KnownVersion(p: Projection, c: Catalog) {
    c.source in p.sources && c.version == p.sources[c.source].version && c.hash == p.sources[c.source].hash
  }

  /** The guard that stops a sync, if any, in the order the source tests them. */
  function SyncRefusal(p: Projection, bindings: Bindings, activeIds: set<PolicyId>, c: Catalog): Option<CapacityError> {
    var agents := CatalogAgents(c.policies);
    if c.source in p.sources && c.version < p.sources[c.source].version then Some(Downgrade)
    else if c.source in p.sources && c.version == p.sources[c.source].version && c.hash != p.sources[c.source].hash then
      Some(HashWithoutBump)
    else if !(agents + p.policies.Keys <= bindings.Keys) then Some(UnknownAgent)
    else if exists a :: a in agents && a in p.policies && p.policies[a].source != c.source then Some(OwnedElsewhere)
    else if exists a :: a in bindings && bindings[a] && a !in agents && a !in NotOwnedBy(p.policies, c.source) then
      Some(CoverageGap)
    else if KnownVersion(p, c) then None
    else if (OldIds(p.policies, c.source) - NewIds(c)) * activeIds != {} then Some(BlockedByLease)
    else if !Insertable(c.policies) then Some(Constraint)
    else None
  }

  function SyncedRows(p: Projection, c: Catalog, path: Option<string>, now: int): Projection {
    Projection(p.sources[c.source := SourceRow(c.version, c.hash, EffectivePath(c, path), now)],
               NotOwnedBy(p.policies, c.source) + Inserted(c, |c.policies|, now))
  }

  function Sync(p: Projection, bindings: Bindings, activeIds: set<PolicyId>, c: Catalog, path: Option<string>, now: int)
    : Result<Projection, CapacityError>
  {
    var refusal := SyncRefusal(p, bindings, activeIds, c);
    if refusal.Some? then Err(refusal.value)
    else if KnownVersion(p, c) then Ok(p)
    else Ok(SyncedRows(p, c, path, now))
  }

  /** What the strict validation of the current rows demands of one source row. */
  predicate ValidSource(id: SourceId, s: SourceRow) {
    IsLabel(id) && s.version >= 0 && IsSha256(s.hash) && ValidSourcePath(s.path)
  }

  /** What it demands of one policy row, apart from its source row. */
  predicate ValidPolicy(a: AgentId, r: PolicyRow) {
    && IsLabel(a) && IsLabel(r.source) && r.version >= 0 && IsSha256(r.hash) && ValidLimit(r.limit)
    && r.id == PolicyId(a, r.hash, r.limit, r.source, r.version)
  }

  predicate Anchored(p: Projection, a: AgentId)
    requires a in p.policies
  {
    var r := p.policies[a];
    r.source in p.sources && r.version == p.sources[r.source].version && r.hash == p.sources[r.source].hash
  }

  predicate ValidProjection(p: Projection, bindings: Bindings) {
    && (forall id | id in p.sources :: ValidSource(id, p.sources[id]))
    && (forall a | a in p.policies :: ValidPolicy(a, p.policies[a]) && Anchored(p, a) && a in bindings)
    && (forall a | a in bindings && bindings[a] :: a in p.policies)
  }

  datatype Captured = Captured(source: SourceId, row: SourceRow, policies: map<AgentId, PolicyRow>)

  datatype Snapshot =
    | SnapshotV1(target: SourceId, captured: Option<Captured>)
    | SnapshotV2(target: SourceId, captured: Option<Captured>, preserved: Projection)

  /** SHA-256 of the canonical inner snapshot. */
  datatype SnapshotDigest = SnapshotDigest(of: Snapshot)

  datatype Envelope = Envelope(snapshot: Snapshot, digest: SnapshotDigest)

  predicate ValidCaptured(c: Captured, target: SourceId) {
    && c.source == target && ValidSource(c.source, c.row)
    && forall a | a in c.policies ::
         && ValidPolicy(a, c.policies[a]) && c.policies[a].source == target
         && c.policies[a].version == c.row.version && c.policies[a].hash == c.row.hash
  }

  predicate WellFormedPreserved(w: Projection) {
    && (forall id | id in w.sources :: ValidSource(id, w.sources[id]))
    && forall a | a in w.policies ::
         var r := w.policies[a];
         IsLabel(a) && IsLabel(r.source) && r.version >= 0 && IsSha256(r.hash) && ValidLimit(r.limit)
  }

  /** The rows of every source but the target: the witness a snapshot carries. */
  function Preserved(p: Projection, target: SourceId): Projection {
    Projection(p.sources - {target}, NotOwnedBy(p.policies, target))
  }

  function OwnedBy(policies: map<AgentId, PolicyRow>, source: SourceId): map<AgentId, PolicyRow> {
    map a | a in policies && policies[a].source == source :: policies[a]
  }

  function CapturedRows(p: Projection, target: SourceId): Option<Captured> {
    if target in p.sources then Some(Captured(target, p.sources[target], OwnedBy(p.policies, target))) else None
  }

  function Capture(p: Projection, bindings: Bindings, target: SourceId): Result<Envelope, CapacityError> {
    if !IsLabel(target) then Err(InvalidLabel)
    else if !ValidProjection(p, bindings) then Err(InvalidProjection)
    else
      var s := SnapshotV2(target, CapturedRows(p, target), Preserved(p, target));
      Ok(Envelope(s, SnapshotDigest(s)))
  }

  function WitnessOf(s: Snapshot): Projection {
    match s
    case SnapshotV1(_, _) => Projection(map[], map[])
    case SnapshotV2(_, _, w) => w
  }

  predicate AcceptableEnvelope(env: Envelope, target: SourceId) {
    && env.digest == SnapshotDigest(env.snapshot)
    && env.snapshot.target == target
    && (env.snapshot.SnapshotV2? ==> WellFormedPreserved(env.snapshot.preserved))
    && (env.snapshot.captured.Some? ==> ValidCaptured(env.snapshot.captured.value, target))
  }

  function TargetPolicies(s: Snapshot): map<AgentId, PolicyRow> {
    if s.captured.Some? then s.captured.value.policies else map[]
  }

  function RestoreRefusal(p: Projection, bindings: Bindings, activeLeases: nat, target: SourceId, env: Envelope)
    : Option<CapacityError>
  {
    var kept := WitnessOf(env.snapshot);
    var proposed := TargetPolicies(env.snapshot).Keys + kept.policies.Keys;
    if !IsLabel(target) then Some(InvalidLabel)
    else if !AcceptableEnvelope(env, target) then Some(InvalidSnapshot)
    else if !ValidProjection(p, bindings) then Some(InvalidProjection)
    else if activeLeases != 0 then Some(ActiveLeases)
    else if env.snapshot.SnapshotV1? && Preserved(p, target) != Projection(map[], map[]) then Some(MultiSourceV1)
    else if Preserved(p, target) != kept then Some(WitnessMismatch)
    else if !(proposed <= bindings.Keys) then Some(UnknownAgent)
    else if exists a :: a in bindings && bindings[a] && a !in proposed then Some(CoverageGap)
    else if TargetPolicies(env.snapshot).Keys * kept.policies.Keys != {} then Some(OwnedElsewhere)
    else None
  }

  /** The rows after the target is deleted and the captured rows are inserted. */
  function RestoredRows(p: Projection, target: SourceId, s: Snapshot): Projection {
    var rest := Preserved(p, target);
    if s.captured.None? then rest
    else Projection(rest.sources[s.captured.value.source := s.captured.value.row],
                    rest.policies + s.captured.value.policies)
  }

  function Restore(p: Projection, bindings: Bindings, activeLeases: nat, target: SourceId, env: Envelope)
    : Result<Projection, CapacityError>
  {
    var refusal := RestoreRefusal(p, bindings, activeLeases, target, env);
    if refusal.Some? then Err(refusal.value) else Ok(RestoredRows(p, target, env.snapshot))
  }

  // ---------------------------------------------------------------- what parsing a catalogue guarantees

  /** `parse_capacity_catalog` accepts only catalogues like this one; it does not look at the path's characters. */
  predicate Parsed(c: Catalog) {
    && IsLabel(c.source) && c.version >= 0 && IsSha256(c.hash)
    && (forall i | 0 <= i < |c.policies| :: IsLabel(c.policies[i].agent)) && Insertable(c.policies)
  }

  // ------------------------------------------------ sync keeps the strict validation, or the path breaks it

  /** One sync of the source, by any operator, at any time, with any leases around. */
  datatype SyncCall = SyncCall(catalog: Catalog, path: Option<string>, activeIds: set<PolicyId>, now: int)

  function SyncBy(p: Projection, bindings: Bindings, call: SyncCall): Result<Projection, CapacityError> {
    Sync(p, bindings, call.activeIds, call.catalog, call.path, call.now)
  }

  /** The rows after a run of calls; a refused call changes nothing. */
  function AfterSyncs(p: Projection, bindings: Bindings, calls: seq<SyncCall>): Projection {
    if calls == [] then p else
      var before := AfterSyncs(p, bindings, calls[..|calls| - 1]);
      var call := calls[|calls| - 1];
      match SyncBy(before, bindings, call)
      case Ok(after) => after
      case Err(_) => before
  }

  /** Every rule but the one about the characters of the target's own source path. */
  ghost predicate ValidButPath(p: Projection, bindings: Bindings, target: SourceId) {
    && (forall id | id in p.sources :: IsLabel(id) && p.sources[id].version >= 0 && IsSha256(p.sources[id].hash))
    && (forall id | id in p.sources && id != target :: ValidSourcePath(p.sources[id].path))
    && (forall a | a in p.policies :: ValidPolicy(a, p.policies[a]) && Anchored(p, a) && a in bindings)
    && (forall a | a in bindings && bindings[a] :: a in p.policies)
  }

  predicate TargetPathStorable(p: Projection, target: SourceId) {
    target in p.sources ==> ValidSourcePath(p.sources[target].path)
  }

  lemma ButPathPlusPath(p: Projection, bindings: Bindings, target: SourceId)
    ensures ValidProjection(p, bindings) <==> ValidButPath(p, bindings, target) && TargetPathStorable(p, target)
  {
  }

  /** What the synced policy rows are: the rows of the other sources, untouched, and one row per catalogue policy. */
  lemma SyncedPolicies(p: Projection, c: Catalog, path: Option<string>, now: int)
    requires forall a | a in CatalogAgents(c.policies) && a in p.policies :: p.policies[a].source == c.source
    ensures var rows := SyncedRows(p, c, path, now).policies;
            && rows.Keys == NotOwnedBy(p.policies, c.source).Keys + CatalogAgents(c.policies)
            && NotOwnedBy(rows, c.source) == NotOwnedBy(p.policies, c.source)
            && (forall a | a in rows && rows[a].source == c.source ::
                  exists i :: 0 <= i < |c.policies| && c.policies[i].agent == a
                    && rows[a] == RowOf(c, c.policies[i], now))
  {
    assert c.policies[..|c.policies|] == c.policies;
    var kept, added := NotOwnedBy(p.policies, c.source), Inserted(c, |c.policies|, now);
    assert kept.Keys !! added.Keys;
    var rows := SyncedRows(p, c, path, now).policies;
    forall a | a in rows
      ensures rows[a].source != c.source <==> a in kept
      ensures a !in kept ==>
                exists i :: 0 <= i < |c.policies| && c.policies[i].agent == a && rows[a] == RowOf(c, c.policies[i], now)
    {
      if a in added {
        var i := InsertedFrom(c, |c.policies|, now, a);
      }
    }
    assert NotOwnedBy(rows, c.source) == kept;
  }

  lemma SyncedRowsValidButPath(p: Projection, bindings: Bindings, c: Catalog, path: Option<string>, now: int)
    requires ValidButPath(p, bindings, c.source) && Parsed(c)
    requires CatalogAgents(c.policies) <= bindings.Keys
    requires forall a | a in CatalogAgents(c.policies) && a in p.policies :: p.policies[a].source == c.source
    requires forall a | a in bindings && bindings[a] ::
               a in CatalogAgents(c.policies) || a in NotOwnedBy(p.policies, c.source)
    ensures ValidButPath(SyncedRows(p, c, path, now), bindings, c.source)
    ensures Preserved(SyncedRows(p, c, path, now), c.source) == Preserved(p, c.source)
  {
    SyncedPolicies(p, c, path, now);
    var q := SyncedRows(p, c, path, now);
    forall a | a in q.policies
      ensures ValidPolicy(a, q.policies[a]) && Anchored(q, a) && a in bindings
    {
      if q.policies[a].source != c.source {
        assert a in NotOwnedBy(q.policies, c.source);
        assert Anchored(p, a);
      }
    }
    assert q.sources - {c.source} == p.sources - {c.source};
  }

  lemma SyncKeepsAllButPath(p: Projection, bindings: Bindings, call: SyncCall)
    requires ValidButPath(p, bindings, call.catalog.source) && Parsed(call.catalog) && SyncBy(p, bindings, call).Ok?
    ensures call.catalog.source in SyncBy(p, bindings, call).value.sources
    ensures ValidButPath(SyncBy(p, bindings, call).value, bindings, call.catalog.source)
    ensures Preserved(SyncBy(p, bindings, call).value, call.catalog.source) == Preserved(p, call.catalog.source)
  {
    if !KnownVersion(p, call.catalog) {
      SyncedRowsValidButPath(p, bindings, call.catalog, call.path, call.now);
    }
  }

  /**
   A successful sync keeps every rule of the strict validation exactly when the path it stored passes the path rule.
   */
  lemma SyncKeepsValidity(p: Projection, bindings: Bindings, call: SyncCall)
    requires ValidProjection(p, bindings) && Parsed(call.catalog) && SyncBy(p, bindings, call).Ok?
    ensures var q, target := SyncBy(p, bindings, call).value, call.catalog.source;
            && target in q.sources
            && (ValidProjection(q, bindings) <==> ValidSourcePath(q.sources[target].path))
            && Preserved(q, target) == Preserved(p, target)
  {
    ButPathPlusPath(p, bindings, call.catalog.source);
    SyncKeepsAllButPath(p, bindings, call);
    ButPathPlusPath(SyncBy(p, bindings, call).value, bindings, call.catalog.source);
  }

  lemma {:induction false} SyncsKeepAllButPath(p: Projection, bindings: Bindings, target: SourceId,
                                               calls: seq<SyncCall>)
    requires ValidButPath(p, bindings, target)
    requires forall i | 0 <= i < |calls| :: calls[i].catalog.source == target && Parsed(calls[i].catalog)
    ensures ValidButPath(AfterSyncs(p, bindings, calls), bindings, target)
    ensures Preserved(AfterSyncs(p, bindings, calls), target) == Preserved(p, target)
  {
    if calls != [] {
      SyncsKeepAllButPath(p, bindings, target, calls[..|calls| - 1]);
      var before, call := AfterSyncs(p, bindings, calls[..|calls| - 1]), calls[|calls| - 1];
      if SyncBy(before, bindings, call).Ok? {
        SyncKeepsAllButPath(before, bindings, call);
      }
    }
  }

  lemma CaptureSplits(p: Projection, bindings: Bindings, target: SourceId)
    requires Capture(p, bindings, target).Ok?
    ensures var s := Capture(p, bindings, target).value.snapshot;
            && TargetPolicies(s) == OwnedBy(p.policies, target)
            && Preserved(p, target).policies + OwnedBy(p.policies, target) == p.policies
            && OwnedBy(p.policies, target).Keys !! Preserved(p, target).policies.Keys
            && AcceptableEnvelope(Capture(p, bindings, target).value, target)
  {
    if target !in p.sources {
      assert forall a | a in p.policies :: Anchored(p, a);
      assert OwnedBy(p.policies, target) == map[];
    } else {
      assert forall a | a in OwnedBy(p.policies, target) :: Anchored(p, a);
    }
  }

  lemma RestoreUndoes(p: Projection, q: Projection, bindings: Bindings, target: SourceId)
    requires Capture(p, bindings, target).Ok?
    requires ValidButPath(q, bindings, target) && Preserved(q, target) == Preserved(p, target)
    ensures Restore(q, bindings, 0, target, Capture(p, bindings, target).value)
         == if TargetPathStorable(q, target) then Ok(p) else Err(InvalidProjection)
  {
    var env := Capture(p, bindings, target).value;
    ButPathPlusPath(q, bindings, target);
    CaptureSplits(p, bindings, target);
    if TargetPathStorable(q, target) {
      CaptureCovers(p, bindings, target);
      RestoredRowsAreCaptured(p, q, target, env.snapshot);
    }
  }

  lemma CaptureCovers(p: Projection, bindings: Bindings, target: SourceId)
    requires ValidProjection(p, bindings)
    ensures OwnedBy(p.policies, target).Keys + Preserved(p, target).policies.Keys == p.policies.Keys
    ensures p.policies.Keys <= bindings.Keys
    ensures forall a | a in bindings && bindings[a] :: a in p.policies.Keys
  {
  }

  lemma RestoredRowsAreCaptured(p: Projection, q: Projection, target: SourceId, s: Snapshot)
    requires Preserved(q, target) == Preserved(p, target)
    requires s.captured == CapturedRows(p, target)
    requires Preserved(p, target).policies + OwnedBy(p.policies, target) == p.policies
    requires TargetPolicies(s) == OwnedBy(p.policies, target)
    ensures RestoredRows(q, target, s) == p
  {
    if target in p.sources {
      assert (p.sources - {target})[target := p.sources[target]] == p.sources;
    } else {
      assert p.sources - {target} == p.sources;
    }
  }

  /**
   Capture, then any run of syncs of the captured source (accepted or refused), then restore with no active lease:
   the restore gives back exactly the captured rows and every other row, unless the last stored source path breaks
   the path rule, which a sync never tests; then it is refused.
   */
  lemma CaptureSyncsRestore(p: Projection, bindings: Bindings, target: SourceId, calls: seq<SyncCall>)
    requires Capture(p, bindings, target).Ok?
    requires forall i | 0 <= i < |calls| :: calls[i].catalog.source == target && Parsed(calls[i].catalog)
    ensures Restore(AfterSyncs(p, bindings, calls), bindings, 0, target, Capture(p, bindings, target).value)
         == if TargetPathStorable(AfterSyncs(p, bindings, calls), target) then Ok(p) else Err(InvalidProjection)
  {
    SyncsKeepAllButPath(p, bindings, target, calls);
    RestoreUndoes(p, AfterSyncs(p, bindings, calls), bindings, target);
  }

  /** The refusal can happen: a control character in the path of one accepted sync blocks the restore. */
  lemma UnstorablePathBlocksRestore()
    ensures exists p, calls: seq<SyncCall>, env ::
              && |calls| == 1 && Parsed(calls[0].catalog) && calls[0].catalog.source == "s"
              && Capture(p, map[], "s") == Ok(env)
              && Restore(AfterSyncs(p, map[], calls), map[], 0, "s", env) == Err(InvalidProjection)
  {
    var p := Projection(map[], map[]);
    var hash := seq(64, i => '0');
    var call := SyncCall(Catalog("s", 0, hash, Some("a\nb"), []), None, {}, 0);
    assert IsLabelChar("s"[0]) && IsLabel("s");
    assert IsSha256(hash);
    assert ValidProjection(p, map[]);
    var env := Capture(p, map[], "s").value;
    assert [call][..0] == [];
    var q := AfterSyncs(p, map[], [call]);
    assert AfterSyncs(p, map[], []) == p;
    assert Sync(p, map[], {}, call.catalog, None, 0) == Ok(SyncedRows(p, call.catalog, None, 0));
    assert q.sources["s"].path == Some("a\nb") && IsCc("a\nb"[1]);
    CaptureSyncsRestore(p, map[], "s", [call]);
    assert !TargetPathStorable(q, "s");
    assert [call][0] == call;
  }

  /** An accepted restore inserts no policy for an agent that another source's row already covers. */
  lemma RestoreDisjoint(p: Projection, bindings: Bindings, active: nat, target: SourceId, env: Envelope)
    requires RestoreRefusal(p, bindings, active, target, env).None?
    ensures TargetPolicies(env.snapshot).Keys !! NotOwnedBy(p.policies, target).Keys
  {
    var owned, kept := TargetPolicies(env.snapshot), WitnessOf(env.snapshot).policies;
    assert kept == NotOwnedBy(p.policies, target) && owned.Keys * kept.Keys == {};
    forall a | a in owned ensures a !in kept {
      assert a !in owned.Keys * kept.Keys;
    }
  }

  lemma MergeSplits(rest: map<AgentId, PolicyRow>, owned: map<AgentId, PolicyRow>, target: SourceId)
    requires rest.Keys * owned.Keys == {}
    requires forall a | a in owned :: owned[a].source == target
    requires forall a | a in rest :: rest[a].source != target
    ensures NotOwnedBy(rest + owned, target) == rest
  {
    forall a | a in rest ensures a !in owned {
      assert a !in rest.Keys * owned.Keys;
    }
  }

  lemma RestoredRowsValid(p: Projection, bindings: Bindings, target: SourceId, s: Snapshot)
    requires ValidProjection(p, bindings)
    requires s.captured.Some? ==> ValidCaptured(s.captured.value, target)
    requires NotOwnedBy(RestoredRows(p, target, s).policies, target) == Preserved(p, target).policies
    requires TargetPolicies(s).Keys + Preserved(p, target).policies.Keys <= bindings.Keys
    requires forall a | a in bindings && bindings[a] :: a in TargetPolicies(s).Keys + Preserved(p, target).policies.Keys
    ensures ValidProjection(RestoredRows(p, target, s), bindings)
  {
    var q := RestoredRows(p, target, s);
    forall a | a in q.policies
      ensures ValidPolicy(a, q.policies[a]) && Anchored(q, a) && a in bindings
    {
      if q.policies[a].source != target {
        assert a in NotOwnedBy(q.policies, target);
        assert Anchored(p, a);
      }
    }
  }

  /** A restore that succeeds leaves rows that the strict validation accepts, for any envelope a caller brings. */
  lemma RestoreKeepsValidity(p: Projection, bindings: Bindings, active: nat, target: SourceId, env: Envelope)
    requires Restore(p, bindings, active, target, env).Ok?
    ensures ValidProjection(Restore(p, bindings, active, target, env).value, bindings)
    ensures Preserved(Restore(p, bindings, active, target, env).value, target) == Preserved(p, target)
  {
    var owned, rest := TargetPolicies(env.snapshot), Preserved(p, target);
    assert WitnessOf(env.snapshot) == rest;
    assert owned.Keys * rest.policies.Keys == {};
    MergeSplits(rest.policies, owned, target);
    assert RestoredRows(p, target, env.snapshot).policies == rest.policies + owned;
    RestoredRowsValid(p, bindings, target, env.snapshot);
    assert RestoredRows(p, target, env.snapshot).sources - {target} == rest.sources;
  }
}
