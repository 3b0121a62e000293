/**
 Completion receipts as the event ledger holds them, and the derivation that re-reads a receipt's state from its events.

 The ledger is the events table in row order.  Event types are the constructors of `Kind`; a lifecycle fingerprint is
 either the digest of its projected fields (a free constructor: SHA-256 taken as injective) or some other text.
 */
module Receipts {
  import opened Text

  type ReceiptId = string

  datatype Stage = Authorized | Claimed | Applied | Consumed

  /**
   `completion.<stage>`, any other `completion.` type, `task.done`, `ci.passed` or another `ci.` type, or anything else.
   */
  datatype Kind =
    | Completion(stage: Stage)
    | CompletionOther(name: string)
    | TaskDone
    | Ci(passed: bool)
    | Other(name: string)

  /** Idempotency keys: `receipt:<id>:<stage>`, `receipt:<id>:task.done`, or a key of another family. */
  datatype Key = ReceiptKey(receipt: ReceiptId, stage: Stage) | DoneKey(receipt: ReceiptId) | OtherKey(text: string)

  /** The lifecycle fields a fingerprint is computed from. */
  datatype Fields = Fields(id: Option<string>, status: Option<string>, workflowStatus: Option<string>,
                           branch: Option<string>)

  datatype Fingerprint = Digest(of: Fields) | Words(s: string)

  predicate IsCanonical(f: Fingerprint) {
    f.Digest? || IsSha256(f.s)
  }

  datatype Expiry = NoExpiry | Malformed | At(time: int)

  /** A payload's `status` text: one of the four receipt statuses, or anything else. */
  datatype StatusText = Known(stage: Stage) | Unknown

  datatype Payload = Payload(receipt: Option<ReceiptId>, status: StatusText, workspace: Option<string>,
                             task: Option<string>, authorizedActor: Option<string>, actor: Option<string>,
                             harness: Option<Fingerprint>, before: Option<Fingerprint>,
                             expectedAfter: Option<Fingerprint>, after: Option<Fingerprint>,
                             applied: Option<Fingerprint>, doneId: Option<string>, expires: Expiry)

  const BLANK := Payload(None, Unknown, None, None, None, None, None, None, None, None, None, None, NoExpiry)

  datatype Event = Event(id: string, kind: Kind, workspace: Option<string>, task: Option<string>, key: Key,
                         payload: Payload)

  type Ledger = seq<Event>

  // ---------------------------------------------------------------- ledger queries

  function FindId(ledger: Ledger, id: string): (e: Option<Event>)
    ensures e.Some? ==> e.value in ledger && e.value.id == id
    ensures e.None? ==> forall x | x in ledger :: x.id != id
  {
    if ledger == [] then None else
      var earlier := FindId(ledger[..|ledger| - 1], id);
      if earlier.Some? then earlier
      else if ledger[|ledger| - 1].id == id then Some(ledger[|ledger| - 1])
      else None
  }

  function FindKey(ledger: Ledger, key: Key): (e: Option<Event>)
    ensures e.Some? ==> e.value in ledger && e.value.key == key
    ensures e.None? ==> forall x | x in ledger :: x.key != key
  {
    if ledger == [] then None else
      var earlier := FindKey(ledger[..|ledger| - 1], key);
      if earlier.Some? then earlier
      else if ledger[|ledger| - 1].key == key then Some(ledger[|ledger| - 1])
      else None
  }

  /** The latest event of a kind for a receipt. */
  function Latest(ledger: Ledger, kind: Kind, r: ReceiptId): (e: Option<Event>)
    ensures e.Some? ==> e.value in ledger && e.value.kind == kind && e.value.payload.receipt == Some(r)
    ensures e.None? ==> forall x | x in ledger :: !(x.kind == kind && x.payload.receipt == Some(r))
  {
    if ledger == [] then None
    else
      var last := ledger[|ledger| - 1];
      if last.kind == kind && last.payload.receipt == Some(r) then Some(last)
      else Latest(ledger[..|ledger| - 1], kind, r)
  }

  predicate InChain(e: Event, r: ReceiptId) {
    (e.kind.Completion? || e.kind.CompletionOther?) && e.payload.receipt == Some(r)
  }

  /** The `completion.` events of one receipt, in row order. */
  function Chain(ledger: Ledger, r: ReceiptId): (c: seq<Event>)
    ensures forall e | e in c :: e in ledger && InChain(e, r)
    ensures forall e | e in ledger && InChain(e, r) :: e in c
  {
    if ledger == [] then [] else
      var last := ledger[|ledger| - 1];
      Chain(ledger[..|ledger| - 1], r) + if InChain(last, r) then [last] else []
  }

  lemma ChainOfAppend(ledger: Ledger, e: Event, r: ReceiptId)
    ensures Chain(ledger + [e], r) == Chain(ledger, r) + if InChain(e, r) then [e] else []
  {
    assert (ledger + [e])[..|ledger|] == ledger;
  }

  lemma FindIdOfAppend(ledger: Ledger, e: Event, id: string)
    ensures FindId(ledger + [e], id) == if FindId(ledger, id).Some? then FindId(ledger, id)
              else if e.id == id then Some(e) else None
  {
    assert (ledger + [e])[..|ledger|] == ledger;
  }

  // ---------------------------------------------------------------- the derivation loop

  datatype Reason = Incomplete | Conflict

  datatype Derived = Derived(workspace: Option<string>, task: Option<string>, actor: Option<string>, status: Stage,
                             expires: Expiry, terminalId: Option<string>)

  datatype Preflight = NoReceipt | Broken(reason: Reason) | Sound(state: Derived)

  predicate Truthy(s: Option<string>) {
    s.Some? && s.value != ""
  }

  predicate Given(f: Option<Fingerprint>) {
    f.Some? && f.value != Words("")
  }

  function Order(i: nat): Stage
    requires i < 4
  {
    if i == 0 then Authorized else if i == 1 then Claimed else if i == 2 then Applied else Consumed
  }

  function Rank(s: Stage): (i: nat)
    ensures i < 4 && Order(i) == s
  {
    match s case Authorized => 0 case Claimed => 1 case Applied => 2 case Consumed => 3
  }

  function Predecessors(s: Stage): set<Stage> {
    match s
    case Authorized => {}
    case Claimed => {Authorized}
    case Applied => {Authorized, Claimed}
    case Consumed => {Authorized, Claimed, Applied}
  }

  function ActorOf(p: Payload): Option<string> {
    if Truthy(p.authorizedActor) then p.authorizedActor else p.actor
  }

  /** The loop's variables. */
  datatype Progress = Progress(seen: set<Stage>, workspace: Option<string>, task: Option<string>, actor: Option<string>,
                               harness: Option<Fingerprint>, expectedAfter: Option<Fingerprint>,
                               after: Option<Fingerprint>, status: Option<Stage>, terminalId: Option<string>)

  const START := Progress({}, None, None, None, None, None, None, None, None)

  function First(known: Option<string>, next: Option<string>): Option<string> {
    if known.Some? then known else next
  }

  /** Is a fingerprint missing, not canonical, or different from the one it must repeat? */
  function CheckFingerprint(f: Option<Fingerprint>, expected: Option<Fingerprint>): Option<Reason> {
    if !Given(f) then Some(Incomplete)
    else if !IsCanonical(f.value) then Some(Conflict)
    else if expected.Some? && f != expected then Some(Conflict)
    else None
  }

  function CheckTerminal(ledger: Ledger, r: ReceiptId, p: Payload, workspace: Option<string>, task: Option<string>,
                         after: Option<Fingerprint>): Option<Reason>
  {
    if !Truthy(p.doneId) || !Given(after) then Some(Incomplete) else
      var done := FindId(ledger, p.doneId.value);
      if done.None? || !done.value.kind.TaskDone? then Some(Incomplete)
      else if done.value.workspace != workspace || done.value.task != task then Some(Conflict)
      else if done.value.payload.receipt != Some(r) then Some(Conflict)
      else CheckFingerprint(done.value.payload.applied, after)
  }

  /** The stage-specific checks of one turn of the loop. */
  function CheckStage(ledger: Ledger, r: ReceiptId, q: Progress, p: Payload, s: Stage): Option<Reason> {
    match s
    case Authorized => CheckFingerprint(p.harness, None)
    case Claimed =>
      var before := CheckFingerprint(p.before, q.harness);
      if before.Some? then before else CheckFingerprint(p.expectedAfter, None)
    case Applied =>
      var before := CheckFingerprint(p.before, q.harness);
      if before.Some? then before else CheckFingerprint(p.after, q.expectedAfter)
    case Consumed => CheckTerminal(ledger, r, p, q.workspace, q.task, q.after)
  }

  predicate Differs(next: Option<string>, known: Option<string>) {
    Truthy(next) && next != known
  }

  /** One turn of the loop. */
  function Turn(ledger: Ledger, r: ReceiptId, q: Progress, e: Event): Result<Progress, Reason> {
    var p := e.payload;
    if p.status.Unknown? then Err(Conflict) else
      var s := p.status.stage;
      if !(Predecessors(s) <= q.seen) then Err(Incomplete)
      else if s in q.seen then Err(Conflict)
      else
        var bound := q.(seen := q.seen + {s}, workspace := First(q.workspace, p.workspace),
                        task := First(q.task, p.task), actor := First(q.actor, ActorOf(p)));
        if Differs(p.workspace, bound.workspace) || Differs(p.task, bound.task)
          || Differs(ActorOf(p), bound.actor) then Err(Conflict)
        else
          var problem := CheckStage(ledger, r, bound, p, s);
          if problem.Some? then Err(problem.value)
          else Ok(bound.(harness := if s.Authorized? then p.harness else bound.harness,
                         expectedAfter := if s.Claimed? then p.expectedAfter else bound.expectedAfter,
                         after := if s.Applied? then p.after else bound.after,
                         status := Some(s),
                         terminalId := if s.Consumed? then Some(e.id) else bound.terminalId))
  }

  /** The loop over the first `n` events of a chain. */
  function Scan(ledger: Ledger, r: ReceiptId, chain: seq<Event>, n: nat): Result<Progress, Reason>
    requires n <= |chain|
  {
    if n == 0 then Ok(START) else
      match Scan(ledger, r, chain, n - 1)
      case Err(reason) => Err(reason)
      case Ok(q) => Turn(ledger, r, q, chain[n - 1])
  }

  function Derive(ledger: Ledger, r: ReceiptId): Preflight {
    var chain := Chain(ledger, r);
    if chain == [] then NoReceipt
    else if chain[0].kind != Completion(Authorized) then Broken(Incomplete)
    else
      match Scan(ledger, r, chain, |chain|)
      case Err(reason) => Broken(reason)
      case Ok(q) => Sound(Derived(q.workspace, q.task, q.actor, q.status.GetOr(Authorized), chain[0].payload.expires,
                                  q.terminalId))
  }

  method ReadEvents(ledger: Ledger, r: ReceiptId) returns (events: seq<Event>)
    ensures events == Chain(ledger, r)
  {
    events := [];
    for i := 0 to |ledger|
      invariant events == Chain(ledger[..i], r)
    {
      assert ledger[..i + 1][..i] == ledger[..i];
      if InChain(ledger[i], r) {
        events := events + [ledger[i]];
      }
    }
    assert ledger[..|ledger|] == ledger;
  }

  /**
   The derivation as the source runs it: a loop over the events, updating its variables, stopping at the first defect.
   */
  method LookupReceiptForPreflight(ledger: Ledger, r: ReceiptId) returns (result: Preflight)
    ensures result == Derive(ledger, r)
  {
    var events := ReadEvents(ledger, r);
    if events == [] {
      return NoReceipt;
    }
    if events[0].kind != Completion(Authorized) {
      return Broken(Incomplete);
    }
    var q, i := START, 0;
    while i < |events|
      invariant i <= |events| && Scan(ledger, r, events, i) == Ok(q)
    {
      var turn := Turn(ledger, r, q, events[i]);
      i := i + 1;
      if turn.Err? {
        StuckScan(ledger, r, events, i, |events|);
        return Broken(turn.error);
      }
      q := turn.value;
    }
    return Sound(Derived(q.workspace, q.task, q.actor, q.status.GetOr(Authorized), events[0].payload.expires,
                         q.terminalId));
  }

  lemma {:induction false} StuckScan(ledger: Ledger, r: ReceiptId, chain: seq<Event>, m: nat, n: nat)
    requires m <= n <= |chain| && Scan(ledger, r, chain, m).Err?
    ensures Scan(ledger, r, chain, n) == Scan(ledger, r, chain, m)
  {
    if m < n {
      StuckScan(ledger, r, chain, m, n - 1);
    }
  }

  // ---------------------------------------------------------------- what the derivation accepts, said without the loop

  /** The first value present. */
  function FirstGiven(values: seq<Option<string>>): Option<string> {
    if values == [] then None else First(FirstGiven(values[..|values| - 1]), values[|values| - 1])
  }

  /** Every non-empty value equals the first one present. */
  predicate Agree(values: seq<Option<string>>) {
    forall i | 0 <= i < |values| :: !Differs(values[i], FirstGiven(values))
  }

  predicate Canonical(f: Option<Fingerprint>) {
    f.Some? && IsCanonical(f.value)
  }

  function Workspaces(chain: seq<Event>): seq<Option<string>> {
    seq(|chain|, i requires 0 <= i < |chain| => chain[i].payload.workspace)
  }

  function Tasks(chain: seq<Event>): seq<Option<string>> {
    seq(|chain|, i requires 0 <= i < |chain| => chain[i].payload.task)
  }

  function Actors(chain: seq<Event>): seq<Option<string>> {
    seq(|chain|, i requires 0 <= i < |chain| => ActorOf(chain[i].payload))
  }

  predicate TerminalMatches(done: Option<Event>, r: ReceiptId, workspace: Option<string>, task: Option<string>,
                            after: Option<Fingerprint>)
  {
    && done.Some? && done.value.kind.TaskDone? && done.value.workspace == workspace && done.value.task == task
    && done.value.payload.receipt == Some(r) && done.value.payload.applied == after
  }

  /**
   A well-formed receipt history, or a beginning of one: the statuses run through the lifecycle in order, the identities
   agree, and the fingerprints link: one before-fingerprint throughout, one after-fingerprint from claim to `task.done`.
   */
  predicate WellLinked(ledger: Ledger, r: ReceiptId, chain: seq<Event>) {
    && |chain| <= 4
    && (forall i | 0 <= i < |chain| :: chain[i].payload.status == Known(Order(i)))
    && Agree(Workspaces(chain)) && Agree(Tasks(chain)) && Agree(Actors(chain))
    && (|chain| > 0 ==> Canonical(chain[0].payload.harness))
    && (|chain| > 1 ==>
        chain[1].payload.before == chain[0].payload.harness && Canonical(chain[1].payload.expectedAfter))
    && (|chain| > 2 ==>
        chain[2].payload.before == chain[0].payload.harness && chain[2].payload.after == chain[1].payload.expectedAfter)
    && (|chain| > 3 ==>
          Truthy(chain[3].payload.doneId)
          && TerminalMatches(FindId(ledger, chain[3].payload.doneId.value), r, FirstGiven(Workspaces(chain)),
                             FirstGiven(Tasks(chain)), chain[1].payload.expectedAfter))
  }

  function SeenAfter(n: nat): set<Stage>
    requires n <= 4
  {
    if n == 0 then {} else SeenAfter(n - 1) + {Order(n - 1)}
  }

  /** What the loop's variables hold after a well-linked chain. */
  function ProgressOf(c: seq<Event>): Progress
    requires |c| <= 4
  {
    Progress(SeenAfter(|c|), FirstGiven(Workspaces(c)), FirstGiven(Tasks(c)), FirstGiven(Actors(c)),
             if |c| > 0 then c[0].payload.harness else None,
             if |c| > 1 then c[1].payload.expectedAfter else None,
             if |c| > 2 then c[2].payload.after else None,
             if |c| > 0 then Some(Order(|c| - 1)) else None,
             if |c| > 3 then Some(c[3].id) else None)
  }

  lemma FirstGivenStable(values: seq<Option<string>>, v: Option<string>)
    ensures FirstGiven(values + [v]) == First(FirstGiven(values), v)
    ensures Agree(values + [v]) <==> Agree(values) && !Differs(v, First(FirstGiven(values), v))
  {
    assert (values + [v])[..|values|] == values;
    if FirstGiven(values).None? {
      NoneGiven(values);
    } else {
      assert forall i | 0 <= i < |values| :: (values + [v])[i] == values[i];
      assert (values + [v])[|values|] == v;
    }
  }

  lemma NoneGiven(values: seq<Option<string>>)
    requires FirstGiven(values).None?
    ensures forall i | 0 <= i < |values| :: values[i].None?
  {
    if values != [] {
      NoneGiven(values[..|values| - 1]);
    }
  }

  lemma IdentitiesGrow(c: seq<Event>, e: Event)
    ensures Workspaces(c + [e]) == Workspaces(c) + [e.payload.workspace]
    ensures Tasks(c + [e]) == Tasks(c) + [e.payload.task]
    ensures Actors(c + [e]) == Actors(c) + [ActorOf(e.payload)]
  {
  }

  lemma SeenIsOrder(n: nat, s: Stage)
    requires n <= 4
    ensures s in SeenAfter(n) <==> Rank(s) < n
    ensures Predecessors(s) <= SeenAfter(n) <==> Rank(s) <= n
  {
    assert forall t: Stage :: t in SeenAfter(n) <==> Rank(t) < n by {
      forall t: Stage ensures t in SeenAfter(n) <==> Rank(t) < n { SeenRank(n, t); }
    }
    assert s.Claimed? ==> Authorized in Predecessors(s);
    assert s.Applied? ==> Claimed in Predecessors(s);
    assert s.Consumed? ==> Applied in Predecessors(s);
  }

  lemma {:induction false} SeenRank(n: nat, s: Stage)
    requires n <= 4
    ensures s in SeenAfter(n) <==> Rank(s) < n
  {
    if n > 0 {
      SeenRank(n - 1, s);
    }
  }

  /** What the next event of a well-linked chain must carry, by its position. */
  predicate LinksNext(ledger: Ledger, r: ReceiptId, c: seq<Event>, p: Payload, workspace: Option<string>,
                      task: Option<string>)
    requires |c| < 4
  {
    match |c|
    case 0 => Canonical(p.harness)
    case 1 => p.before == c[0].payload.harness && Canonical(p.expectedAfter)
    case 2 => p.before == c[0].payload.harness && p.after == c[1].payload.expectedAfter
    case _ => Truthy(p.doneId)
              && TerminalMatches(FindId(ledger, p.doneId.value), r, workspace, task, c[1].payload.expectedAfter)
  }

  /** The stage checks look at no more of the loop's variables than these. */
  lemma CheckStageLocal(ledger: Ledger, r: ReceiptId, q: Progress, e: Event, workspace: Option<string>,
                        task: Option<string>)
    requires e.payload.status.Known?
    ensures CheckStage(ledger, r, q.(seen := q.seen + {e.payload.status.stage}, workspace := workspace, task := task,
                                    actor := First(q.actor, ActorOf(e.payload))), e.payload, e.payload.status.stage) ==
            CheckStage(ledger, r, q.(workspace := workspace, task := task), e.payload, e.payload.status.stage)
  {
  }

  /** The checks of the stage that is due are the links of the next event. */
  lemma StageMeaning(ledger: Ledger, r: ReceiptId, c: seq<Event>, p: Payload, workspace: Option<string>,
                     task: Option<string>)
    requires WellLinked(ledger, r, c) && |c| < 4
    ensures CheckStage(ledger, r, ProgressOf(c).(workspace := workspace, task := task), p, Order(|c|)).None?
       <==> LinksNext(ledger, r, c, p, workspace, task)
  {
  }

  /** An event that is not the next stage stops the loop and breaks the chain. */
  lemma TurnOutOfOrder(ledger: Ledger, r: ReceiptId, c: seq<Event>, e: Event)
    requires |c| <= 4 && !(|c| < 4 && e.payload.status == Known(Order(|c|)))
    ensures Turn(ledger, r, ProgressOf(c), e).Err? && !WellLinked(ledger, r, c + [e])
  {
    assert (c + [e])[|c|] == e;
    if e.payload.status.Known? {
      SeenIsOrder(|c|, e.payload.status.stage);
    }
  }

  /** The next stage goes on exactly when the identities agree and its own links hold. */
  lemma WellLinkedGrows(ledger: Ledger, r: ReceiptId, c: seq<Event>, e: Event)
    requires WellLinked(ledger, r, c) && |c| < 4 && e.payload.status == Known(Order(|c|))
    ensures var p, w, t, a := e.payload, First(FirstGiven(Workspaces(c)), e.payload.workspace),
                              First(FirstGiven(Tasks(c)), e.payload.task),
                              First(FirstGiven(Actors(c)), ActorOf(e.payload));
            && (WellLinked(ledger, r, c + [e]) <==>
                  !Differs(p.workspace, w) && !Differs(p.task, t) && !Differs(ActorOf(p), a)
                    && LinksNext(ledger, r, c, p, w, t))
            && FirstGiven(Workspaces(c + [e])) == w && FirstGiven(Tasks(c + [e])) == t
            && FirstGiven(Actors(c + [e])) == a
  {
    var d := c + [e];
    IdentitiesGrow(c, e);
    FirstGivenStable(Workspaces(c), e.payload.workspace);
    FirstGivenStable(Tasks(c), e.payload.task);
    FirstGivenStable(Actors(c), ActorOf(e.payload));
    assert d[|c|] == e;
    assert forall i | 0 <= i < |c| :: d[i] == c[i];
  }

  /** A turn goes on exactly when the event continues the well-linked chain. */
  lemma TurnMeaning(ledger: Ledger, r: ReceiptId, c: seq<Event>, e: Event)
    requires WellLinked(ledger, r, c)
    ensures Turn(ledger, r, ProgressOf(c), e).Ok? <==> WellLinked(ledger, r, c + [e])
    ensures WellLinked(ledger, r, c + [e]) ==> Turn(ledger, r, ProgressOf(c), e) == Ok(ProgressOf(c + [e]))
  {
    if |c| < 4 && e.payload.status == Known(Order(|c|)) {
      var w, t := First(FirstGiven(Workspaces(c)), e.payload.workspace), First(FirstGiven(Tasks(c)), e.payload.task);
      SeenIsOrder(|c|, Order(|c|));
      WellLinkedGrows(ledger, r, c, e);
      StageMeaning(ledger, r, c, e.payload, w, t);
      CheckStageLocal(ledger, r, ProgressOf(c), e, w, t);
      assert (c + [e])[|c|] == e;
      assert forall i | 0 <= i < |c| :: (c + [e])[i] == c[i];
    } else {
      TurnOutOfOrder(ledger, r, c, e);
    }
  }

  /** The loop gets through `n` events exactly when they are well linked, and its variables then say so. */
  lemma {:induction false} ScanMeaning(ledger: Ledger, r: ReceiptId, chain: seq<Event>, n: nat)
    requires n <= |chain|
    ensures Scan(ledger, r, chain, n).Ok? <==> WellLinked(ledger, r, chain[..n])
    ensures WellLinked(ledger, r, chain[..n]) ==> Scan(ledger, r, chain, n) == Ok(ProgressOf(chain[..n]))
  {
    if n > 0 {
      ScanMeaning(ledger, r, chain, n - 1);
      assert chain[..n] == chain[..n - 1] + [chain[n - 1]];
      if WellLinked(ledger, r, chain[..n - 1]) {
        TurnMeaning(ledger, r, chain[..n - 1], chain[n - 1]);
      } else {
        PrefixWellLinked(ledger, r, chain[..n - 1], chain[n - 1]);
      }
    }
  }

  lemma PrefixWellLinked(ledger: Ledger, r: ReceiptId, c: seq<Event>, e: Event)
    ensures WellLinked(ledger, r, c + [e]) ==> WellLinked(ledger, r, c)
  {
    var d := c + [e];
    IdentitiesGrow(c, e);
    FirstGivenStable(Workspaces(c), e.payload.workspace);
    FirstGivenStable(Tasks(c), e.payload.task);
    FirstGivenStable(Actors(c), ActorOf(e.payload));
    assert forall i | 0 <= i < |c| :: d[i] == c[i];
  }

  /**
   The derivation is sound and complete on any ledger whatsoever: it reports a state exactly for a chain that starts
   with an authorization and is well linked, and the state is the chain's identities and its last stage.
   */
  lemma DerivationMeaning(ledger: Ledger, r: ReceiptId)
    ensures var chain := Chain(ledger, r);
            && (Derive(ledger, r) == NoReceipt <==> chain == [])
            && (Derive(ledger, r).Sound? <==>
                  chain != [] && chain[0].kind == Completion(Authorized) && WellLinked(ledger, r, chain))
            && (Derive(ledger, r).Sound? ==>
                  Derive(ledger, r).state ==
                    Derived(FirstGiven(Workspaces(chain)), FirstGiven(Tasks(chain)), FirstGiven(Actors(chain)),
                                                     Order(|chain| - 1), chain[0].payload.expires,
                                                     if |chain| == 4 then Some(chain[3].id) else None))
  {
    var chain := Chain(ledger, r);
    ScanMeaning(ledger, r, chain, |chain|);
    assert chain[..|chain|] == chain;
  }
}
