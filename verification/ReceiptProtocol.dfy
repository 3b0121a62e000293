/**
 Prepare, claim, apply and consume over the event ledger.

 A call first reads and decides (`Read...`), then appends what it decided (`Commit`).  Between the two, any other
 call may append: the runs below interleave the two halves of any number of calls.  The unique idempotency key
 makes the append happen at most once.
 */
module ReceiptProtocol {
  import opened Text
  import opened Receipts

  datatype Workflow = Workflow(status: Option<string>, branch: Option<string>)

  datatype Metadata = Metadata(receipt: Option<ReceiptId>, after: Option<Fingerprint>)

  /** A checklist item; a missing or null value is None, and a non-object `workflow` or `lease` counts as missing. */
  datatype Item = Item(id: Option<string>, status: Option<string>, workflow: Option<Workflow>, owner: Option<string>,
                       session: Option<string>, lease: Option<Option<string>>, verification: string,
                       metadata: Option<Metadata>)

  function WorkflowStatus(item: Item): Option<string> {
    if item.workflow.Some? then item.workflow.value.status else None
  }

  function Branch(item: Item): Option<string> {
    if item.workflow.Some? then item.workflow.value.branch else None
  }

  function Print(item: Item): Fingerprint {
    Digest(Fields(item.id, item.status, WorkflowStatus(item), Branch(item)))
  }

  function WouldBeDone(item: Item): Item {
    item.(status := Some("done"), workflow := Some(Workflow(Some("closed"), Branch(item))))
  }

  predicate IsDoneClosed(item: Item) {
    item.status == Some("done") && WorkflowStatus(item) == Some("closed")
  }

  predicate OwnershipReleased(item: Item) {
    item.owner.None? && item.session.None? && (item.lease.Some? ==> Truthy(item.lease.value))
  }

  predicate GatePasses(item: Item) {
    if WorkflowStatus(item).Some? then WorkflowStatus(item).value in {"review_approved", "closed"}
    else item.status == Some("done")
  }

  datatype ReceiptError =
    | UnknownWorkspace | GateNotPassed | ItemMissing | ForgeGateFailed
    | UnknownReceipt | WorkspaceMismatch | TaskMismatch | ActorMismatch | MalformedExpiry | ReceiptExpired
    | AlreadyConsumed | FingerprintMismatch | BeforeMismatch | NotClaimed | AfterMismatch
    | ConsumedWithoutDone | NotApplied | DoneUnderOtherAuthority | DeployedNotDone | OwnershipUnreleased

  /** What a call decided to append. */
  datatype Write = One(event: Event) | Terminal(done: Event, consumed: Event)

  /** The outcome of a call's reads: an answer from what is already recorded, or something to append. */
  datatype Decision = Replay(event: Event) | Append(write: Write)

  predicate HasKey(ledger: Ledger, key: Key) {
    FindKey(ledger, key).Some?
  }

  predicate HasId(ledger: Ledger, id: string) {
    FindId(ledger, id).Some?
  }

  /** `append_event`: an existing key wins; a clash of generated ids raises. */
  function AppendEvent(ledger: Ledger, e: Event): Option<Ledger> {
    if HasKey(ledger, e.key) then Some(ledger)
    else if HasId(ledger, e.id) then None
    else Some(ledger + [e])
  }

  /**
   The two appends of a consume, in one savepoint; the consumed event names the `task.done` row that the first one
   found.
   */
  function AppendTerminal(ledger: Ledger, done: Event, consumed: Event): Ledger {
    var first := AppendEvent(ledger, done);
    if first.None? then ledger else
      var recorded := FindKey(first.value, done.key);
      var second := AppendEvent(first.value,
                                consumed.(payload := consumed.payload.(doneId := Some(recorded.GetOr(done).id))));
      second.GetOr(ledger)
  }

  function Commit(ledger: Ledger, w: Write): Ledger {
    match w
    case One(e) => AppendEvent(ledger, e).GetOr(ledger)
    case Terminal(done, consumed) => AppendTerminal(ledger, done, consumed)
  }

  // ---------------------------------------------------------------- the reads of each call

  function Bind(r: ReceiptId, stage: Stage, workspace: string, task: string, actor: string): Payload {
    BLANK.(receipt := Some(r), status := Known(stage), workspace := Some(workspace), task := Some(task),
           authorizedActor := Some(actor))
  }

  function NewEvent(id: string, r: ReceiptId, stage: Stage, workspace: string, task: string, payload: Payload): Event {
    Event(id, Completion(stage), Some(workspace), Some(task), ReceiptKey(r, stage), payload)
  }

  function LatestCi(ledger: Ledger, workspace: string, task: string): Option<bool> {
    if ledger == [] then None else
      var last := ledger[|ledger| - 1];
      if last.kind.Ci? && last.workspace == Some(workspace) && last.task == Some(task) then Some(last.kind.passed)
      else LatestCi(ledger[..|ledger| - 1], workspace, task)
  }

  /**
   `gateItem` and `item` are what the harness state and the checklist hold for the task; `newId` and `r` are generated.
   */
  datatype PrepareCall = PrepareCall(known: bool, workspace: string, task: string, actor: string,
                                     gateItem: Option<Item>, item: Option<Item>, r: ReceiptId, newId: string,
                                     expires: int)

  function ReadPrepare(ledger: Ledger, c: PrepareCall): Result<Decision, ReceiptError> {
    if !c.known then Err(UnknownWorkspace)
    else if c.gateItem.None? || !GatePasses(c.gateItem.value) then Err(GateNotPassed)
    else if c.item.None? || c.item.value.id != Some(c.task) then Err(ItemMissing)
    else if LatestCi(ledger, c.workspace, c.task) == Some(false) then Err(ForgeGateFailed)
    else
      var payload := Bind(c.r, Authorized, c.workspace, c.task, c.actor).(harness := Some(Print(c.item.value)),
          expires := At(c.expires));
      Ok(Append(One(NewEvent(c.newId, c.r, Authorized, c.workspace, c.task, payload))))
  }

  function BindingRefusal(p: Payload, workspace: string, task: string, actor: string, now: int): Option<ReceiptError> {
    if p.workspace != Some(workspace) then Some(WorkspaceMismatch)
    else if p.task != Some(task) then Some(TaskMismatch)
    else if p.authorizedActor != Some(actor) then Some(ActorMismatch)
    else if p.expires.Malformed? then Some(MalformedExpiry)
    else if p.expires.At? && now > p.expires.time then Some(ReceiptExpired)
    else None
  }

  datatype ClaimCall = ClaimCall(r: ReceiptId, workspace: string, task: string, actor: string, before: Fingerprint,
                                 expectedAfter: Fingerprint, newId: string, now: int)

  function ClaimedEvent(c: ClaimCall): Event {
    var payload := Bind(c.r, Claimed, c.workspace, c.task, c.actor).(before := Some(c.before),
        expectedAfter := Some(c.expectedAfter));
    NewEvent(c.newId, c.r, Claimed, c.workspace, c.task, payload)
  }

  function ReadClaim(ledger: Ledger, c: ClaimCall): Result<Decision, ReceiptError> {
    var authorized := Latest(ledger, Completion(Authorized), c.r);
    if authorized.None? then Err(UnknownReceipt) else
    var refusal := BindingRefusal(authorized.value.payload, c.workspace, c.task, c.actor, c.now);
    if refusal.Some? then Err(refusal.value)
    else if Latest(ledger, Completion(Consumed), c.r).Some? then Err(AlreadyConsumed)
    else
      var applied, claimed := Latest(ledger, Completion(Applied), c.r), Latest(ledger, Completion(Claimed), c.r);
      if applied.Some? then
        var p := applied.value.payload;
        if p.after != Some(c.expectedAfter) then Err(FingerprintMismatch)
        else if Some(c.before) != p.before && Some(c.before) != p.after then Err(BeforeMismatch)
        else Ok(Replay(applied.value))
      else if claimed.Some? then
        var p := claimed.value.payload;
        if p.expectedAfter != Some(c.expectedAfter) then Err(FingerprintMismatch)
        else if Some(c.before) != p.before && Some(c.before) != p.expectedAfter then Err(BeforeMismatch)
        else Ok(Replay(claimed.value))
      else if Some(c.before) != authorized.value.payload.harness then Err(BeforeMismatch)
      else Ok(Append(One(ClaimedEvent(c))))
  }

  datatype ApplyCall = ApplyCall(r: ReceiptId, workspace: string, task: string, actor: string, after: Fingerprint,
                                 newId: string, now: int)

  function AppliedEvent(c: ApplyCall, before: Option<Fingerprint>): Event {
    var payload := Bind(c.r, Applied, c.workspace, c.task, c.actor).(before := before, after := Some(c.after));
    NewEvent(c.newId, c.r, Applied, c.workspace, c.task, payload)
  }

  function ReadApply(ledger: Ledger, c: ApplyCall): Result<Decision, ReceiptError> {
    var authorized := Latest(ledger, Completion(Authorized), c.r);
    if authorized.None? then Err(UnknownReceipt) else
    var refusal := BindingRefusal(authorized.value.payload, c.workspace, c.task, c.actor, c.now);
    if refusal.Some? then Err(refusal.value)
    else if Latest(ledger, Completion(Consumed), c.r).Some? then Err(AlreadyConsumed)
    else
      var applied, claimed := Latest(ledger, Completion(Applied), c.r), Latest(ledger, Completion(Claimed), c.r);
      if applied.Some? then
        if applied.value.payload.after != Some(c.after) then Err(FingerprintMismatch) else Ok(Replay(applied.value))
      else if claimed.None? then Err(NotClaimed)
      else if claimed.value.payload.expectedAfter != Some(c.after) then Err(AfterMismatch)
      else Ok(Append(One(AppliedEvent(c, claimed.value.payload.before))))
  }

  /** `deployed` is the item the deployed harness holds under the receipt's task id. */
  datatype ConsumeCall = ConsumeCall(r: ReceiptId, actor: string, expectedWorkspace: Option<string>,
                                     deployed: Option<Item>, doneId: string, newId: string, now: int)

  predicate DoneElsewhere(ledger: Ledger, r: ReceiptId, workspace: Option<string>, task: Option<string>) {
    exists i :: 0 <= i < |ledger| && ledger[i].kind.TaskDone? && ledger[i].workspace == workspace
                && ledger[i].task == task && ledger[i].payload.receipt != Some(r)
  }

  /** The `task.done` and `completion.consumed` rows a consume appends, from the authorized payload. */
  function TerminalFor(c: ConsumeCall, p: Payload, after: Option<Fingerprint>): Write {
    var done := Event(c.doneId, TaskDone, p.workspace, p.task, DoneKey(c.r),
                      BLANK.(receipt := Some(c.r), task := p.task, applied := after));
    var payload := BLANK.(receipt := Some(c.r), status := Known(Consumed), workspace := p.workspace, task := p.task,
                          authorizedActor := Some(c.actor));
    Terminal(done, Event(c.newId, Completion(Consumed), p.workspace, p.task, ReceiptKey(c.r, Consumed), payload))
  }

  function ReadConsume(ledger: Ledger, c: ConsumeCall): Result<Decision, ReceiptError> {
    var authorized := Latest(ledger, Completion(Authorized), c.r);
    if authorized.None? then Err(UnknownReceipt) else
    var p := authorized.value.payload;
    var workspace, task := p.workspace.GetOr(""), p.task.GetOr("");
    if c.expectedWorkspace.Some? && p.workspace != c.expectedWorkspace then Err(WorkspaceMismatch) else
    var refusal := BindingRefusal(p.(workspace := Some(workspace), task := Some(task)), workspace, task, c.actor,
                                  c.now);
    if refusal.Some? then Err(refusal.value)
    else if Latest(ledger, Completion(Consumed), c.r).Some? then
      var done := Latest(ledger, TaskDone, c.r);
      if done.None? then Err(ConsumedWithoutDone) else Ok(Replay(done.value))
    else
      var applied := Latest(ledger, Completion(Applied), c.r);
      if applied.None? then Err(NotApplied)
      else if DoneElsewhere(ledger, c.r, p.workspace, p.task) then Err(DoneUnderOtherAuthority)
      else if c.deployed.None? || c.deployed.value.id != p.task then Err(ItemMissing)
      else if !IsDoneClosed(c.deployed.value) then Err(DeployedNotDone)
      else if !OwnershipReleased(c.deployed.value) then Err(OwnershipUnreleased)
      else if applied.value.payload.after != Some(Print(c.deployed.value)) then Err(FingerprintMismatch)
      else Ok(Append(TerminalFor(c, p, applied.value.payload.after)))
  }

  datatype Call =
    | Preparing(p: PrepareCall)
    | Claiming(c: ClaimCall)
    | Applying(a: ApplyCall)
    | Consuming(k: ConsumeCall)

  function Read(ledger: Ledger, call: Call): Result<Decision, ReceiptError> {
    match call
    case Preparing(p) => ReadPrepare(ledger, p)
    case Claiming(c) => ReadClaim(ledger, c)
    case Applying(a) => ReadApply(ledger, a)
    case Consuming(k) => ReadConsume(ledger, k)
  }

  // ---------------------------------------------------------------- interleaved runs

  datatype System = System(ledger: Ledger, pending: seq<Write>)

  /** A half of a call, or an append by some other part of the program. */
  datatype Move = Reads(call: Call) | Commits(i: nat) | Elsewhere(event: Event)

  /** The rest of the program appends no `completion.` event and uses no `receipt:` key; generated ids are not empty. */
  predicate MoveOk(s: System, m: Move) {
    match m
    case Reads(call) => call.Consuming? ==> call.k.doneId != ""
    case Commits(i) => i < |s.pending|
    case Elsewhere(e) => e.key.OtherKey? && !e.kind.Completion? && !e.kind.CompletionOther?
  }

  /** A committed write stays pending, so that a lost acknowledgement may commit it again. */
  function Next(s: System, m: Move): System
    requires MoveOk(s, m)
  {
    match m
    case Reads(call) =>
      (match Read(s.ledger, call)
       case Ok(Append(w)) => s.(pending := s.pending + [w])
       case _ => s)
    case Commits(i) => s.(ledger := Commit(s.ledger, s.pending[i]))
    case Elsewhere(e) => s.(ledger := AppendEvent(s.ledger, e).GetOr(s.ledger))
  }

  /** The identity every event of a receipt repeats. */
  predicate SameBinding(p: Payload, q: Payload) {
    p.workspace == q.workspace && p.task == q.task && p.authorizedActor == q.authorizedActor && p.actor == q.actor
  }

  /** The event that stands at position `n` of a receipt's chain, given the ones before it. */
  predicate Fits(ledger: Ledger, r: ReceiptId, c: seq<Event>, n: nat, e: Event)
    requires n <= |c|
  {
    && n < 4
    && e.kind == Completion(Order(n)) && e.key == ReceiptKey(r, Order(n))
    && e.payload.receipt == Some(r) && e.payload.status == Known(Order(n))
    && e.payload.workspace.Some? && e.payload.task.Some? && e.payload.authorizedActor.Some? && e.payload.actor.None?
    && (n > 0 ==> SameBinding(e.payload, c[0].payload))
    && match n
       case 0 => e.payload.harness.Some? && e.payload.harness.value.Digest?
         && e.payload.harness.value.of.id == e.payload.task
       case 1 => e.payload.before == c[0].payload.harness && e.payload.expectedAfter.Some?
       case 2 =>
         && e.payload.before == c[0].payload.harness && e.payload.after == c[1].payload.expectedAfter
         && e.payload.expectedAfter.None?
       case _ =>
         && c[2].payload.after.Some? && DoneClosedDigest(c[2].payload.after.value, e.payload.task)
         && Truthy(e.payload.doneId)
         && TerminalMatches(FindId(ledger, e.payload.doneId.value), r, e.payload.workspace, e.payload.task,
                            c[2].payload.after)
  }

  /** The fingerprint of the task's item, done and closed. */
  predicate DoneClosedDigest(f: Fingerprint, task: Option<string>) {
    f.Digest? && f.of.id == task && f.of.status == Some("done") && f.of.workflowStatus == Some("closed")
  }

  /** A receipt's chain as the protocol builds it. */
  predicate Built(ledger: Ledger, r: ReceiptId, c: seq<Event>) {
    |c| <= 4 && forall n {:trigger Fits(ledger, r, c, n, c[n])} | 0 <= n < |c| :: Fits(ledger, r, c, n, c[n])
  }

  predicate ChainBuilt(ledger: Ledger, r: ReceiptId) {
    Built(ledger, r, Chain(ledger, r))
  }

  /** Exactly the consumed receipts have their `task.done`. */
  predicate DoneMarked(ledger: Ledger, r: ReceiptId) {
    HasKey(ledger, DoneKey(r)) <==> |Chain(ledger, r)| == 4
  }

  /** Receipt events and receipt keys go together. */
  predicate Keyed(e: Event) {
    && (e.key.ReceiptKey? ==> e.kind == Completion(e.key.stage) && e.payload.receipt == Some(e.key.receipt))
    && (e.kind.Completion? || e.kind.CompletionOther? ==> e.key.ReceiptKey?)
  }

  predicate AllKeyed(ledger: Ledger) {
    forall i | 0 <= i < |ledger| :: Keyed(ledger[i])
  }

  ghost predicate LedgerInv(ledger: Ledger) {
    AllKeyed(ledger) && (forall r :: ChainBuilt(ledger, r)) && (forall r :: DoneMarked(ledger, r))
  }

  /** A decided write still fits the receipt's chain, whatever was appended since. */
  predicate WriteOk(ledger: Ledger, w: Write) {
    match w
    case One(e) =>
      && e.key.ReceiptKey? && Rank(e.key.stage) < 3 && Rank(e.key.stage) <= |Chain(ledger, e.key.receipt)|
      && Fits(ledger, e.key.receipt, Chain(ledger, e.key.receipt), Rank(e.key.stage), e)
    case Terminal(done, consumed) =>
      && consumed.key.ReceiptKey? && consumed.key.stage == Consumed && consumed.kind == Completion(Consumed)
      && TerminalOk(Chain(ledger, consumed.key.receipt), consumed.key.receipt, done, consumed.payload)
  }

  predicate TerminalOk(c: seq<Event>, r: ReceiptId, done: Event, p: Payload) {
    && |c| >= 3 && done.key == DoneKey(r) && done.id != ""
    && TerminalMatches(Some(done), r, p.workspace, p.task, c[2].payload.after)
    && p.receipt == Some(r) && p.status == Known(Consumed) && SameBinding(p, c[0].payload)
    && c[2].payload.after.Some? && DoneClosedDigest(c[2].payload.after.value, p.task)
  }

  ghost predicate Inv(s: System) {
    LedgerInv(s.ledger) && forall i | 0 <= i < |s.pending| :: WriteOk(s.ledger, s.pending[i])
  }

  lemma HasKeyOfAppend(ledger: Ledger, e: Event, key: Key)
    ensures HasKey(ledger + [e], key) <==> HasKey(ledger, key) || e.key == key
  {
    assert (ledger + [e])[..|ledger|] == ledger;
  }

  lemma FindKeyOfAppend(ledger: Ledger, e: Event)
    requires FindKey(ledger, e.key).None?
    ensures FindKey(ledger + [e], e.key) == Some(e)
  {
    assert (ledger + [e])[..|ledger|] == ledger;
  }

  /** Later appends disturb neither a chain that is built nor an event that fits it. */
  lemma FitsStays(ledger: Ledger, e: Event, r: ReceiptId, c: seq<Event>, more: seq<Event>, n: nat, x: Event)
    requires n <= |c| && Fits(ledger, r, c, n, x)
    ensures Fits(ledger + [e], r, c + more, n, x)
  {
    if n == 3 {
      FindIdOfAppend(ledger, e, x.payload.doneId.value);
    }
  }

  lemma BuiltStays(ledger: Ledger, e: Event, r: ReceiptId, c: seq<Event>)
    requires Built(ledger, r, c)
    ensures Built(ledger + [e], r, c)
  {
    forall n | 0 <= n < |c|
      ensures Fits(ledger + [e], r, c, n, c[n])
    {
      assert Fits(ledger, r, c, n, c[n]);
      FitsStays(ledger, e, r, c, [], n, c[n]);
      assert c + [] == c;
    }
  }

  lemma BuiltGrows(ledger: Ledger, e: Event, r: ReceiptId, c: seq<Event>)
    requires Built(ledger, r, c) && Fits(ledger, r, c, |c|, e)
    ensures Built(ledger + [e], r, c + [e])
  {
    var d := c + [e];
    forall n | 0 <= n < |d|
      ensures Fits(ledger + [e], r, d, n, d[n])
    {
      if n < |c| {
        assert Fits(ledger, r, c, n, c[n]) && d[n] == c[n];
      }
      FitsStays(ledger, e, r, c, [e], n, d[n]);
    }
  }

  /** The stage of a receipt event is its position in the chain. */
  lemma PositionIsStage(ledger: Ledger, r: ReceiptId, e: Event) returns (i: nat)
    requires ChainBuilt(ledger, r) && e in ledger && InChain(e, r)
    ensures i < |Chain(ledger, r)| <= 4 && Chain(ledger, r)[i] == e && e.kind == Completion(Order(i))
    ensures e.key == ReceiptKey(r, Order(i))
  {
    var c := Chain(ledger, r);
    i :| 0 <= i < |c| && c[i] == e;
    assert Fits(ledger, r, c, i, c[i]);
  }

  lemma RankOrder(i: nat)
    requires i < 4
    ensures Rank(Order(i)) == i
  {
  }

  /** A stage is recorded exactly when the chain is long enough. */
  lemma StageRecorded(ledger: Ledger, r: ReceiptId, stage: Stage)
    requires AllKeyed(ledger) && ChainBuilt(ledger, r)
    ensures HasKey(ledger, ReceiptKey(r, stage)) <==> Rank(stage) < |Chain(ledger, r)|
    ensures var e := Latest(ledger, Completion(stage), r);
            if Rank(stage) < |Chain(ledger, r)| then e == Some(Chain(ledger, r)[Rank(stage)]) else e.None?
  {
    var c, k := Chain(ledger, r), Rank(stage);
    if k < |c| {
      assert Fits(ledger, r, c, k, c[k]) && c[k] in ledger;
    }
    if HasKey(ledger, ReceiptKey(r, stage)) {
      var e := FindKey(ledger, ReceiptKey(r, stage)).value;
      assert Keyed(e);
      var i := PositionIsStage(ledger, r, e);
      RankOrder(i);
    }
    var latest := Latest(ledger, Completion(stage), r);
    if latest.Some? {
      var i := PositionIsStage(ledger, r, latest.value);
      RankOrder(i);
    }
  }

  lemma AppendKeepsWrites(ledger: Ledger, e: Event, w: Write)
    requires WriteOk(ledger, w)
    ensures WriteOk(ledger + [e], w)
  {
    match w
    case One(x) =>
      var r := x.key.receipt;
      ChainOfAppend(ledger, e, r);
      FitsStays(ledger, e, r, Chain(ledger, r), if InChain(e, r) then [e] else [], Rank(x.key.stage), x);
    case Terminal(done, consumed) =>
      ChainOfAppend(ledger, e, consumed.key.receipt);
  }

  lemma KeyedGrows(ledger: Ledger, e: Event)
    requires AllKeyed(ledger) && Keyed(e)
    ensures AllKeyed(ledger + [e])
  {
  }

  /** Appending an event that is no receipt event, under a key of another family or its own unused `task.done` key. */
  lemma AppendOutside(ledger: Ledger, e: Event)
    requires LedgerInv(ledger) && !e.key.ReceiptKey? && !e.kind.Completion? && !e.kind.CompletionOther?
    ensures AllKeyed(ledger + [e])
    ensures forall r :: Chain(ledger + [e], r) == Chain(ledger, r)
    ensures forall r :: ChainBuilt(ledger + [e], r)
    ensures forall r :: HasKey(ledger + [e], DoneKey(r)) <==> |Chain(ledger, r)| == 4 || e.key == DoneKey(r)
  {
    KeyedGrows(ledger, e);
    forall r
      ensures Chain(ledger + [e], r) == Chain(ledger, r) && ChainBuilt(ledger + [e], r)
      ensures HasKey(ledger + [e], DoneKey(r)) <==> |Chain(ledger, r)| == 4 || e.key == DoneKey(r)
    {
      assert ChainBuilt(ledger, r) && DoneMarked(ledger, r);
      ChainOfAppend(ledger, e, r);
      BuiltStays(ledger, e, r, Chain(ledger, r));
      HasKeyOfAppend(ledger, e, DoneKey(r));
    }
  }

  lemma AppendElsewhereKeeps(ledger: Ledger, e: Event)
    requires LedgerInv(ledger) && e.key.OtherKey? && !e.kind.Completion? && !e.kind.CompletionOther?
    ensures LedgerInv(ledger + [e])
  {
    AppendOutside(ledger, e);
    forall r ensures DoneMarked(ledger + [e], r) {
      assert DoneMarked(ledger, r);
    }
  }

  lemma AppendDueAt(ledger: Ledger, e: Event, r: ReceiptId, x: ReceiptId)
    requires ChainBuilt(ledger, x) && Fits(ledger, r, Chain(ledger, r), |Chain(ledger, r)|, e)
    ensures ChainBuilt(ledger + [e], x) && Chain(ledger + [e], x) == Chain(ledger, x) + if x == r then [e] else []
  {
    ChainOfAppend(ledger, e, x);
    if x == r {
      BuiltGrows(ledger, e, r, Chain(ledger, r));
    } else {
      assert Chain(ledger + [e], x) == Chain(ledger, x);
      BuiltStays(ledger, e, x, Chain(ledger, x));
    }
  }

  /** Appending the receipt event that is due. */
  lemma AppendDue(ledger: Ledger, e: Event, r: ReceiptId)
    requires AllKeyed(ledger) && forall x :: ChainBuilt(ledger, x)
    requires Fits(ledger, r, Chain(ledger, r), |Chain(ledger, r)|, e)
    ensures AllKeyed(ledger + [e])
    ensures forall x :: ChainBuilt(ledger + [e], x)
    ensures forall x :: Chain(ledger + [e], x) == Chain(ledger, x) + if x == r then [e] else []
  {
    KeyedGrows(ledger, e);
    forall x
      ensures ChainBuilt(ledger + [e], x) && Chain(ledger + [e], x) == Chain(ledger, x) + if x == r then [e] else []
    {
      AppendDueAt(ledger, e, r, x);
    }
  }

  lemma CommitOneIs(ledger: Ledger, e: Event)
    requires LedgerInv(ledger) && WriteOk(ledger, One(e))
    ensures Commit(ledger, One(e)) == ledger
         || (Commit(ledger, One(e)) == ledger + [e] && |Chain(ledger, e.key.receipt)| == Rank(e.key.stage))
  {
    assert ChainBuilt(ledger, e.key.receipt);
    StageRecorded(ledger, e.key.receipt, e.key.stage);
  }

  lemma CommitOneKeeps(ledger: Ledger, e: Event)
    requires LedgerInv(ledger) && WriteOk(ledger, One(e))
    ensures LedgerInv(Commit(ledger, One(e)))
    ensures Commit(ledger, One(e)) == ledger || Commit(ledger, One(e)) == ledger + [e]
  {
    CommitOneIs(ledger, e);
    if Commit(ledger, One(e)) != ledger {
      AppendDue(ledger, e, e.key.receipt);
      forall x
        ensures DoneMarked(ledger + [e], x)
      {
        assert DoneMarked(ledger, x);
        HasKeyOfAppend(ledger, e, DoneKey(x));
      }
    }
  }

  /** The two events a consume appends: the terminal first, then the consumed event that names it. */
  function Named(done: Event, consumed: Event): Event {
    consumed.(payload := consumed.payload.(doneId := Some(done.id)))
  }

  lemma CommitTerminalIsPair(ledger: Ledger, done: Event, consumed: Event)
    requires LedgerInv(ledger) && WriteOk(ledger, Terminal(done, consumed))
    ensures var after := Commit(ledger, Terminal(done, consumed));
            || after == ledger
            || (|Chain(ledger, consumed.key.receipt)| == 3 && FindId(ledger, done.id).None?
                && after == ledger + [done] + [Named(done, consumed)])
  {
    var r := consumed.key.receipt;
    assert ChainBuilt(ledger, r) && DoneMarked(ledger, r);
    StageRecorded(ledger, r, Consumed);
    if HasKey(ledger, done.key) {
      assert AppendEvent(ledger, done) == Some(ledger);
    } else {
      HasKeyOfAppend(ledger, done, consumed.key);
      FindKeyOfAppend(ledger, done);
    }
  }

  lemma TerminalDue(ledger: Ledger, mid: Ledger, done: Event, consumed: Event)
    requires WriteOk(ledger, Terminal(done, consumed)) && |Chain(ledger, consumed.key.receipt)| == 3
    requires ChainBuilt(ledger, consumed.key.receipt)
    requires Chain(mid, consumed.key.receipt) == Chain(ledger, consumed.key.receipt)
    requires FindId(mid, done.id) == Some(done)
    ensures Fits(mid, consumed.key.receipt, Chain(mid, consumed.key.receipt), 3, Named(done, consumed))
  {
    assert Fits(ledger, consumed.key.receipt, Chain(ledger, consumed.key.receipt), 0,
                Chain(ledger, consumed.key.receipt)[0]);
  }

  lemma CommitTerminalKeeps(ledger: Ledger, done: Event, consumed: Event)
    requires LedgerInv(ledger) && WriteOk(ledger, Terminal(done, consumed))
    ensures LedgerInv(Commit(ledger, Terminal(done, consumed)))
  {
    CommitTerminalIsPair(ledger, done, consumed);
    if Commit(ledger, Terminal(done, consumed)) != ledger {
      var r, mid, last := consumed.key.receipt, ledger + [done], Named(done, consumed);
      AppendOutside(ledger, done);
      FindIdOfAppend(ledger, done, done.id);
      assert ChainBuilt(ledger, r);
      TerminalDue(ledger, mid, done, consumed);
      AppendDue(mid, last, r);
      forall x
        ensures DoneMarked(mid + [last], x)
      {
        assert DoneMarked(ledger, x) && ChainBuilt(ledger, x);
        HasKeyOfAppend(mid, last, DoneKey(x));
      }
    }
  }

  /** What a claim that appends has checked. */
  lemma ClaimChecked(ledger: Ledger, c: ClaimCall)
    requires ReadClaim(ledger, c).Ok? && ReadClaim(ledger, c).value.Append?
    ensures ReadClaim(ledger, c).value.write == One(ClaimedEvent(c))
    ensures var authorized := Latest(ledger, Completion(Authorized), c.r);
            && authorized.Some? && Some(c.before) == authorized.value.payload.harness
            && SameBinding(Bind(c.r, Claimed, c.workspace, c.task, c.actor), authorized.value.payload.(actor := None))
  {
  }

  lemma ReadClaimDecides(ledger: Ledger, c: ClaimCall)
    requires LedgerInv(ledger) && ReadClaim(ledger, c).Ok? && ReadClaim(ledger, c).value.Append?
    ensures WriteOk(ledger, ReadClaim(ledger, c).value.write)
  {
    ClaimChecked(ledger, c);
    assert ChainBuilt(ledger, c.r);
    StageRecorded(ledger, c.r, Authorized);
    var chain := Chain(ledger, c.r);
    assert Fits(ledger, c.r, chain, 0, chain[0]);
    ClaimedFits(ledger, c, chain);
  }

  lemma ClaimedFits(ledger: Ledger, c: ClaimCall, chain: seq<Event>)
    requires chain == Chain(ledger, c.r) && chain != []
    requires Some(c.before) == chain[0].payload.harness
    requires SameBinding(Bind(c.r, Claimed, c.workspace, c.task, c.actor), chain[0].payload)
    ensures WriteOk(ledger, One(ClaimedEvent(c)))
  {
  }

  /** What an apply that appends has checked. */
  lemma ApplyChecked(ledger: Ledger, a: ApplyCall)
    requires ReadApply(ledger, a).Ok? && ReadApply(ledger, a).value.Append?
    ensures var authorized, claimed := Latest(ledger, Completion(Authorized), a.r),
              Latest(ledger, Completion(Claimed), a.r);
            && authorized.Some? && claimed.Some? && claimed.value.payload.expectedAfter == Some(a.after)
            && SameBinding(Bind(a.r, Applied, a.workspace, a.task, a.actor), authorized.value.payload.(actor := None))
            && ReadApply(ledger, a).value.write == One(AppliedEvent(a, claimed.value.payload.before))
  {
  }

  lemma ReadApplyDecides(ledger: Ledger, a: ApplyCall)
    requires LedgerInv(ledger) && ReadApply(ledger, a).Ok? && ReadApply(ledger, a).value.Append?
    ensures WriteOk(ledger, ReadApply(ledger, a).value.write)
  {
    ApplyChecked(ledger, a);
    assert ChainBuilt(ledger, a.r);
    StageRecorded(ledger, a.r, Authorized);
    StageRecorded(ledger, a.r, Claimed);
    var chain := Chain(ledger, a.r);
    assert Fits(ledger, a.r, chain, 0, chain[0]) && Fits(ledger, a.r, chain, 1, chain[1]);
    AppliedFits(ledger, a, chain);
  }

  lemma AppliedFits(ledger: Ledger, a: ApplyCall, chain: seq<Event>)
    requires chain == Chain(ledger, a.r) && |chain| >= 2
    requires chain[1].payload.before == chain[0].payload.harness && chain[1].payload.expectedAfter == Some(a.after)
    requires SameBinding(Bind(a.r, Applied, a.workspace, a.task, a.actor), chain[0].payload)
    ensures WriteOk(ledger, One(AppliedEvent(a, chain[1].payload.before)))
  {
  }

  /** What a consume that appends has checked. */
  lemma ConsumeChecked(ledger: Ledger, k: ConsumeCall)
    requires ReadConsume(ledger, k).Ok? && ReadConsume(ledger, k).value.Append?
    ensures Latest(ledger, Completion(Consumed), k.r).None?
    ensures var authorized, applied := Latest(ledger, Completion(Authorized), k.r),
              Latest(ledger, Completion(Applied), k.r);
            && authorized.Some? && applied.Some? && k.deployed.Some?
            && authorized.value.payload.authorizedActor == Some(k.actor)
            && !DoneElsewhere(ledger, k.r, authorized.value.payload.workspace, authorized.value.payload.task)
            && k.deployed.value.id == authorized.value.payload.task && IsDoneClosed(k.deployed.value)
            && OwnershipReleased(k.deployed.value)
            && applied.value.payload.after == Some(Print(k.deployed.value))
            && ReadConsume(ledger, k).value.write ==
                 TerminalFor(k, authorized.value.payload, applied.value.payload.after)
  {
  }

  lemma ReadConsumeDecides(ledger: Ledger, k: ConsumeCall)
    requires LedgerInv(ledger) && k.doneId != "" && ReadConsume(ledger, k).Ok? && ReadConsume(ledger, k).value.Append?
    ensures WriteOk(ledger, ReadConsume(ledger, k).value.write)
  {
    ConsumeChecked(ledger, k);
    assert ChainBuilt(ledger, k.r);
    StageRecorded(ledger, k.r, Authorized);
    StageRecorded(ledger, k.r, Applied);
    var c := Chain(ledger, k.r);
    assert Fits(ledger, k.r, c, 0, c[0]);
    TerminalFits(ledger, k, c, c[2].payload.after);
  }

  lemma TerminalFits(ledger: Ledger, k: ConsumeCall, c: seq<Event>, after: Option<Fingerprint>)
    requires c == Chain(ledger, k.r) && |c| >= 3 && after == c[2].payload.after && k.doneId != ""
    requires c[0].payload.authorizedActor == Some(k.actor) && c[0].payload.actor.None?
    requires after.Some? && DoneClosedDigest(after.value, c[0].payload.task)
    ensures WriteOk(ledger, TerminalFor(k, c[0].payload, after))
  {
  }

  /** What a call decides to append fits the chain it read. */
  lemma ReadDecides(ledger: Ledger, call: Call)
    requires LedgerInv(ledger) && (call.Consuming? ==> call.k.doneId != "")
    requires Read(ledger, call).Ok? && Read(ledger, call).value.Append?
    ensures WriteOk(ledger, Read(ledger, call).value.write)
  {
    match call
    case Preparing(p) =>
    case Claiming(c) => ReadClaimDecides(ledger, c);
    case Applying(a) => ReadApplyDecides(ledger, a);
    case Consuming(k) => ReadConsumeDecides(ledger, k);
  }

  lemma MoveKeeps(s: System, m: Move)
    requires Inv(s) && MoveOk(s, m)
    ensures Inv(Next(s, m))
  {
    match m
    case Reads(call) =>
      if Read(s.ledger, call).Ok? && Read(s.ledger, call).value.Append? {
        ReadDecides(s.ledger, call);
      }
    case Commits(i) =>
      var w := s.pending[i];
      CommitKeeps(s.ledger, w);
      forall j | 0 <= j < |s.pending| ensures WriteOk(Commit(s.ledger, w), s.pending[j]) {
        CommitKeepsWrites(s.ledger, w, s.pending[j]);
      }
    case Elsewhere(e) =>
      AppendElsewhereKeeps(s.ledger, e);
      forall j | 0 <= j < |s.pending| ensures WriteOk(s.ledger + [e], s.pending[j]) {
        AppendKeepsWrites(s.ledger, e, s.pending[j]);
      }
  }

  lemma CommitKeeps(ledger: Ledger, w: Write)
    requires LedgerInv(ledger) && WriteOk(ledger, w)
    ensures LedgerInv(Commit(ledger, w))
  {
    match w
    case One(e) => CommitOneKeeps(ledger, e);
    case Terminal(done, consumed) => CommitTerminalKeeps(ledger, done, consumed);
  }

  lemma CommitKeepsWrites(ledger: Ledger, w: Write, other: Write)
    requires LedgerInv(ledger) && WriteOk(ledger, w) && WriteOk(ledger, other)
    ensures WriteOk(Commit(ledger, w), other)
  {
    match w
    case One(e) =>
      CommitOneIs(ledger, e);
      AppendKeepsWrites(ledger, e, other);
    case Terminal(done, consumed) =>
      CommitTerminalIsPair(ledger, done, consumed);
      AppendKeepsWrites(ledger, done, other);
      AppendKeepsWrites(ledger + [done], Named(done, consumed), other);
  }

  // ---------------------------------------------------------------- completeness of the derivation over runs

  ghost predicate IsRun(run: seq<System>, moves: seq<Move>) {
    && |run| == |moves| + 1 && run[0] == System([], [])
    && forall i | 0 <= i < |moves| :: Moved(run, moves, i)
  }

  ghost predicate Moved(run: seq<System>, moves: seq<Move>, i: nat)
    requires |run| == |moves| + 1 && i < |moves|
  {
    MoveOk(run[i], moves[i]) && run[i + 1] == Next(run[i], moves[i])
  }

  lemma {:induction false} RunKeeps(run: seq<System>, moves: seq<Move>, n: nat)
    requires IsRun(run, moves) && n < |run|
    ensures Inv(run[n])
  {
    if n > 0 {
      RunKeeps(run, moves, n - 1);
      assert Moved(run, moves, n - 1);
      MoveKeeps(run[n - 1], moves[n - 1]);
    }
  }

  /** The receipt's claim recorded an expected after-fingerprint that is no canonical digest. */
  predicate ClaimedLoosely(ledger: Ledger, r: ReceiptId) {
    var claimed := Latest(ledger, Completion(Claimed), r);
    claimed.Some? && claimed.value.payload.expectedAfter.Some?
      && !IsCanonical(claimed.value.payload.expectedAfter.value)
  }

  /** On a ledger the protocol built, the loop's verdict is the furthest recorded stage, unless the claim was loose. */
  lemma DerivationComplete(ledger: Ledger, r: ReceiptId)
    requires LedgerInv(ledger)
    ensures Derive(ledger, r) == NoReceipt <==> !HasKey(ledger, ReceiptKey(r, Authorized))
    ensures Derive(ledger, r).Broken? <==> ClaimedLoosely(ledger, r)
    ensures Derive(ledger, r).Sound? ==>
              forall s: Stage :: HasKey(ledger, ReceiptKey(r, s)) <==> Rank(s) <= Rank(Derive(ledger, r).state.status)
  {
    var c := Chain(ledger, r);
    assert ChainBuilt(ledger, r);
    forall s: Stage ensures HasKey(ledger, ReceiptKey(r, s)) <==> Rank(s) < |c| {
      StageRecorded(ledger, r, s);
    }
    DerivationMeaning(ledger, r);
    if c != [] {
      StageRecorded(ledger, r, Claimed);
      BuiltIsLinked(ledger, r, c);
      RankOrder(|c| - 1);
      assert Fits(ledger, r, c, 0, c[0]);
    }
  }

  lemma BuiltIsLinked(ledger: Ledger, r: ReceiptId, c: seq<Event>)
    requires Built(ledger, r, c)
    ensures WellLinked(ledger, r, c) <==> (|c| > 1 ==> Canonical(c[1].payload.expectedAfter))
    ensures |c| > 1 ==> c[1].payload.expectedAfter.Some?
  {
    forall i | 0 <= i < |c|
      ensures c[i].payload.status == Known(Order(i)) && SameBinding(c[i].payload, c[0].payload)
      ensures c[i].payload.workspace.Some? && c[i].payload.task.Some? && c[i].payload.actor.None?
      ensures i == 1 ==> c[1].payload.before == c[0].payload.harness && c[1].payload.expectedAfter.Some?
      ensures i == 2 ==> c[2].payload.before == c[0].payload.harness && c[2].payload.after == c[1].payload.expectedAfter
      ensures i == 3 ==> Truthy(c[3].payload.doneId)
                         && TerminalMatches(FindId(ledger, c[3].payload.doneId.value), r, c[0].payload.workspace,
                                            c[0].payload.task, c[2].payload.after)
    {
      assert Fits(ledger, r, c, i, c[i]);
    }
    if c != [] {
      assert Fits(ledger, r, c, 0, c[0]);
      AllSame(Workspaces(c));
      AllSame(Tasks(c));
      AllSame(Actors(c));
    }
  }

  lemma {:induction false} AllSame(values: seq<Option<string>>)
    requires values != [] && forall i | 0 <= i < |values| :: values[i] == values[0]
    ensures FirstGiven(values) == values[0] && Agree(values)
  {
    if |values| > 1 {
      AllSame(values[..|values| - 1]);
    }
  }

  /**
   Any number of receipts, any interleaving of reads and appends, any other events: the derivation is never broken and
   returns exactly the furthest stage reached, except for a receipt whose recorded claim supplied a loose digest.
   */
  lemma DerivationCompleteOverRuns(run: seq<System>, moves: seq<Move>, n: nat, r: ReceiptId)
    requires IsRun(run, moves) && n < |run|
    ensures var ledger := run[n].ledger;
            && (Derive(ledger, r) == NoReceipt <==> !HasKey(ledger, ReceiptKey(r, Authorized)))
            && (Derive(ledger, r).Broken? <==> ClaimedLoosely(ledger, r))
            && (Derive(ledger, r).Sound? ==>
                  forall s: Stage :: HasKey(ledger, ReceiptKey(r, s)) <==>
                    Rank(s) <= Rank(Derive(ledger, r).state.status))
  {
    RunKeeps(run, moves, n);
    DerivationComplete(run[n].ledger, r);
  }

  predicate ClaimCanonical(e: Event) {
    e.kind == Completion(Claimed) ==> Canonical(e.payload.expectedAfter)
  }

  predicate WriteCanonical(w: Write) {
    match w
    case One(e) => ClaimCanonical(e)
    case Terminal(done, consumed) => ClaimCanonical(done) && ClaimCanonical(consumed)
  }

  /** No claim that is pending or recorded is loose. */
  ghost predicate ClaimsCanonical(s: System) {
    && (forall i | 0 <= i < |s.ledger| :: ClaimCanonical(s.ledger[i]))
    && (forall i | 0 <= i < |s.pending| :: WriteCanonical(s.pending[i]))
  }

  /** A claim call supplies a canonical digest. */
  predicate SuppliesDigest(m: Move) {
    m.Reads? && m.call.Claiming? ==> IsCanonical(m.call.c.expectedAfter)
  }

  lemma ReadCanonical(ledger: Ledger, call: Call)
    requires SuppliesDigest(Reads(call))
    requires Read(ledger, call).Ok? && Read(ledger, call).value.Append?
    ensures WriteCanonical(Read(ledger, call).value.write)
  {
    match call
    case Preparing(p) =>
    case Claiming(c) => ClaimChecked(ledger, c);
    case Applying(a) => ApplyChecked(ledger, a);
    case Consuming(k) => ConsumeChecked(ledger, k);
  }

  lemma CommitCanonical(ledger: Ledger, w: Write)
    requires LedgerInv(ledger) && WriteOk(ledger, w) && WriteCanonical(w)
    requires forall i | 0 <= i < |ledger| :: ClaimCanonical(ledger[i])
    ensures forall i | 0 <= i < |Commit(ledger, w)| :: ClaimCanonical(Commit(ledger, w)[i])
  {
    match w
    case One(e) => CommitOneIs(ledger, e);
    case Terminal(done, consumed) => CommitTerminalIsPair(ledger, done, consumed);
  }

  lemma MoveKeepsCanonical(s: System, m: Move)
    requires Inv(s) && MoveOk(s, m) && ClaimsCanonical(s) && SuppliesDigest(m)
    ensures ClaimsCanonical(Next(s, m))
  {
    match m
    case Reads(call) =>
      if Read(s.ledger, call).Ok? && Read(s.ledger, call).value.Append? {
        ReadCanonical(s.ledger, call);
      }
    case Commits(i) => CommitCanonical(s.ledger, s.pending[i]);
    case Elsewhere(_) =>
  }

  lemma {:induction false} ClaimsStayCanonical(run: seq<System>, moves: seq<Move>, n: nat)
    requires IsRun(run, moves) && n < |run| && forall i | 0 <= i < |moves| :: SuppliesDigest(moves[i])
    ensures ClaimsCanonical(run[n])
  {
    if n > 0 {
      ClaimsStayCanonical(run, moves, n - 1);
      RunKeeps(run, moves, n - 1);
      assert Moved(run, moves, n - 1);
      MoveKeepsCanonical(run[n - 1], moves[n - 1]);
    } else {
      assert run[0] == System([], []);
    }
  }

  /** If every claim call of the run supplies a canonical digest, the derivation is never broken, for any receipt. */
  lemma NeverBroken(run: seq<System>, moves: seq<Move>, n: nat, r: ReceiptId)
    requires IsRun(run, moves) && n < |run| && forall i | 0 <= i < |moves| :: SuppliesDigest(moves[i])
    ensures !Derive(run[n].ledger, r).Broken?
  {
    DerivationCompleteOverRuns(run, moves, n, r);
    ClaimsStayCanonical(run, moves, n);
    var claimed := Latest(run[n].ledger, Completion(Claimed), r);
    assert claimed.Some? ==> ClaimCanonical(claimed.value);
  }
}
