/**
 What prepare, claim, apply and consume decide, said from the recorded events alone: exactly which call appends, what it
 appends, and which is answered from the record; and over runs, that each recorded stage was decided by such a call.
 */
module ReceiptDecisions {
  import opened Text
  import opened Receipts
  import opened ReceiptProtocol
  import opened ReceiptTerminal

  // ---------------------------------------------------------------- prepare

  /** The workflow status decides where there is one, the item's own status elsewhere. */
  predicate GateIsOpen(item: Item) {
    if item.workflow.Some? && item.workflow.value.status.Some?
    then item.workflow.value.status.value == "review_approved" || item.workflow.value.status.value == "closed"
    else item.status == Some("done")
  }

  predicate IsCi(e: Event, workspace: string, task: string) {
    e.kind.Ci? && e.workspace == Some(workspace) && e.task == Some(task)
  }

  /** The last CI event of the task, if there is one, passed. */
  predicate CiSatisfied(ledger: Ledger, workspace: string, task: string) {
    forall i | 0 <= i < |ledger| && IsLastCi(ledger, i, workspace, task) :: ledger[i].kind.passed
  }

  predicate IsLastCi(ledger: Ledger, i: nat, workspace: string, task: string)
    requires i < |ledger|
  {
    IsCi(ledger[i], workspace, task) && forall j | i < j < |ledger| :: !IsCi(ledger[j], workspace, task)
  }

  lemma {:induction false} CiExactly(ledger: Ledger, workspace: string, task: string)
    ensures CiSatisfied(ledger, workspace, task) <==> LatestCi(ledger, workspace, task) != Some(false)
  {
    if ledger != [] {
      var n, init := |ledger| - 1, ledger[..|ledger| - 1];
      if IsCi(ledger[n], workspace, task) {
        assert IsLastCi(ledger, n, workspace, task);
      } else {
        CiExactly(init, workspace, task);
        assert forall i: nat | i < n :: IsLastCi(ledger, i, workspace, task) <==> IsLastCi(init, i, workspace, task);
      }
    }
  }

  predicate MayAuthorize(ledger: Ledger, c: PrepareCall) {
    && c.known && c.gateItem.Some? && GateIsOpen(c.gateItem.value)
    && c.item.Some? && c.item.value.id == Some(c.task)
    && CiSatisfied(ledger, c.workspace, c.task)
  }

  /** The authorization of a call: the names of the call, its expiry, and the lifecycle fields of the item it read. */
  function AuthorizationOf(c: PrepareCall): Event
    requires c.item.Some?
  {
    var item := c.item.value;
    var workflow := item.workflow.GetOr(Workflow(None, None));
    Event(c.newId, Completion(Authorized), Some(c.workspace), Some(c.task), ReceiptKey(c.r, Authorized),
          Payload(Some(c.r), Known(Authorized), Some(c.workspace), Some(c.task), Some(c.actor), None,
                  Some(Digest(Fields(item.id, item.status, workflow.status, workflow.branch))), None, None, None, None,
                  None, At(c.expires)))
  }

  /**
   Prepare appends exactly if the workspace is known, the closeout gate is open, the item is the task's, and the last CI
   event of the task passed or there is none; it then appends the authorization of that item.
   */
  lemma PrepareExactly(ledger: Ledger, c: PrepareCall)
    ensures if MayAuthorize(ledger, c) then Read(ledger, Preparing(c)) == Ok(Append(One(AuthorizationOf(c))))
            else Read(ledger, Preparing(c)).Err?
    ensures Read(ledger, Preparing(c)) == Err(ForgeGateFailed) <==>
              && c.known && c.gateItem.Some? && GateIsOpen(c.gateItem.value)
              && c.item.Some? && c.item.value.id == Some(c.task) && !CiSatisfied(ledger, c.workspace, c.task)
    ensures Read(ledger, Preparing(c)) == Err(GateNotPassed) <==>
              c.known && (c.gateItem.None? || !GateIsOpen(c.gateItem.value))
  {
    CiExactly(ledger, c.workspace, c.task);
    hide LatestCi, CiSatisfied;
  }

  // ---------------------------------------------------------------- claim, apply, consume

  /** The caller names the receipt's workspace, task and actor, and is in time if the receipt expires. */
  predicate Entitled(authorized: Payload, workspace: string, task: string, actor: string, now: int) {
    && authorized.workspace == Some(workspace) && authorized.task == Some(task)
    && authorized.authorizedActor == Some(actor)
    && (authorized.expires.NoExpiry? || (authorized.expires.At? && now <= authorized.expires.time))
  }

  /** What a stage appends: the names again, and its fingerprints. */
  function StageOf(id: string, r: ReceiptId, stage: Stage, workspace: string, task: string, actor: string,
                   before: Option<Fingerprint>, expectedAfter: Option<Fingerprint>, after: Option<Fingerprint>): Event
  {
    Event(id, Completion(stage), Some(workspace), Some(task), ReceiptKey(r, stage),
          Payload(Some(r), Known(stage), Some(workspace), Some(task), Some(actor), None, None, before, expectedAfter,
                  after, None, None, NoExpiry))
  }

  /** The stages of a reachable receipt, by position. */
  lemma StagesOf(ledger: Ledger, r: ReceiptId)
    requires LedgerInv(ledger)
    ensures var c := Chain(ledger, r);
            && |c| <= 4
            && Latest(ledger, Completion(Authorized), r) == (if |c| > 0 then Some(c[0]) else None)
            && Latest(ledger, Completion(Claimed), r) == (if |c| > 1 then Some(c[1]) else None)
            && Latest(ledger, Completion(Applied), r) == (if |c| > 2 then Some(c[2]) else None)
            && Latest(ledger, Completion(Consumed), r) == (if |c| > 3 then Some(c[3]) else None)
            && (|c| > 0 ==> c[0].payload.workspace.Some? && c[0].payload.task.Some?)
            && (|c| > 1 ==> c[1].payload.before == c[0].payload.harness)
  {
    assert ChainBuilt(ledger, r);
    StageRecorded(ledger, r, Authorized);
    StageRecorded(ledger, r, Claimed);
    StageRecorded(ledger, r, Applied);
    StageRecorded(ledger, r, Consumed);
    var c := Chain(ledger, r);
    assert |c| > 0 ==> Fits(ledger, r, c, 0, c[0]);
    assert |c| > 1 ==> Fits(ledger, r, c, 1, c[1]);
  }

  /**
   On a reachable ledger a claim appends exactly if an entitled caller claims a receipt that is authorized and no more,
   with the fingerprint it was authorized over; it is answered from the record exactly if the receipt is claimed or
   applied with the same after-fingerprint and the caller saw the item before or after; all else is refused.
   */
  lemma ClaimExactly(ledger: Ledger, c: ClaimCall)
    requires LedgerInv(ledger)
    ensures var s, d := Chain(ledger, c.r), Read(ledger, Claiming(c));
            if s == [] || !Entitled(s[0].payload, c.workspace, c.task, c.actor, c.now) then d.Err?
            else if |s| == 1 && Some(c.before) == s[0].payload.harness
            then d == Ok(Append(One(StageOf(c.newId, c.r, Claimed, c.workspace, c.task, c.actor, Some(c.before),
                                            Some(c.expectedAfter), None))))
            else if |s| == 2 && s[1].payload.expectedAfter == Some(c.expectedAfter)
                    && Some(c.before) in {s[1].payload.before, s[1].payload.expectedAfter} then d == Ok(Replay(s[1]))
            else if |s| == 3 && s[2].payload.after == Some(c.expectedAfter)
                    && Some(c.before) in {s[2].payload.before, s[2].payload.after} then d == Ok(Replay(s[2]))
            else d.Err?
  {
    StagesOf(ledger, c.r);
    hide LedgerInv, Chain;
  }

  /**
   An apply appends exactly if an entitled caller applies a receipt that is claimed and no more with the fingerprint the
   claim announced; it is answered from the record exactly if the receipt is applied with that fingerprint.
   */
  lemma ApplyExactly(ledger: Ledger, a: ApplyCall)
    requires LedgerInv(ledger)
    ensures var s, d := Chain(ledger, a.r), Read(ledger, Applying(a));
            if s == [] || !Entitled(s[0].payload, a.workspace, a.task, a.actor, a.now) then d.Err?
            else if |s| == 2 && s[1].payload.expectedAfter == Some(a.after)
            then d == Ok(Append(One(StageOf(a.newId, a.r, Applied, a.workspace, a.task, a.actor, s[0].payload.harness,
                                            None, Some(a.after)))))
            else if |s| == 3 && s[2].payload.after == Some(a.after) then d == Ok(Replay(s[2]))
            else d.Err?
  {
    StagesOf(ledger, a.r);
    hide LedgerInv, Chain;
  }

  /** Another receipt's, or nobody's, `task.done` stands for the task. */
  predicate TakenByAnother(ledger: Ledger, r: ReceiptId, authorized: Payload) {
    exists i :: 0 <= i < |ledger| && ledger[i].kind.TaskDone? && ledger[i].payload.receipt != Some(r)
                && ledger[i].workspace == authorized.workspace && ledger[i].task == authorized.task
  }

  /** The deployed item is the task's, done and closed, owned by nobody, and is what the receipt applied. */
  predicate IsDeployed(item: Option<Item>, authorized: Payload, applied: Payload) {
    && item.Some? && item.value.id == authorized.task && item.value.status == Some("done")
    && item.value.workflow.Some? && item.value.workflow.value.status == Some("closed")
    && item.value.owner.None? && item.value.session.None?
    && (item.value.lease.Some? ==> item.value.lease.value.GetOr("") != "")
    && applied.after ==
         Some(Digest(Fields(item.value.id, Some("done"), Some("closed"), item.value.workflow.value.branch)))
  }

  /** The two rows a consume appends. */
  function TerminalOf(k: ConsumeCall, authorized: Payload, applied: Payload): Write {
    Terminal(Event(k.doneId, TaskDone, authorized.workspace, authorized.task, DoneKey(k.r),
                   Payload(Some(k.r), Unknown, None, authorized.task, None, None, None, None, None, None, applied.after,
                           None, NoExpiry)),
             Event(k.newId, Completion(Consumed), authorized.workspace, authorized.task, ReceiptKey(k.r, Consumed),
                   Payload(Some(k.r), Known(Consumed), authorized.workspace, authorized.task, Some(k.actor), None, None,
                           None, None, None, None, None, NoExpiry)))
  }

  /** The last `task.done` that names the receipt. */
  predicate IsLastDone(ledger: Ledger, i: nat, r: ReceiptId)
    requires i < |ledger|
  {
    ledger[i].kind.TaskDone? && ledger[i].payload.receipt == Some(r)
    && forall j | i < j < |ledger| :: !(ledger[j].kind.TaskDone? && ledger[j].payload.receipt == Some(r))
  }

  lemma {:induction false} LastDone(ledger: Ledger, r: ReceiptId)
    ensures var done := Latest(ledger, TaskDone, r);
            done.Some? ==> exists i :: 0 <= i < |ledger| && IsLastDone(ledger, i, r) && ledger[i] == done.value
  {
    if ledger != [] {
      var n, init := |ledger| - 1, ledger[..|ledger| - 1];
      if ledger[n].kind.TaskDone? && ledger[n].payload.receipt == Some(r) {
        assert IsLastDone(ledger, n, r);
      } else {
        LastDone(init, r);
        assert forall i: nat | i < n && IsLastDone(init, i, r) :: IsLastDone(ledger, i, r);
      }
    }
  }

  /** What the reads of a consume decide, given the receipt's recorded stages. */
  lemma ConsumeReads(ledger: Ledger, k: ConsumeCall, p: Payload)
    requires Latest(ledger, Completion(Authorized), k.r).Some?
    requires p == Latest(ledger, Completion(Authorized), k.r).value.payload && p.workspace.Some? && p.task.Some?
    requires k.expectedWorkspace.Some? ==> k.expectedWorkspace == p.workspace
    ensures var consumed, applied, done, d := Latest(ledger, Completion(Consumed), k.r),
              Latest(ledger, Completion(Applied), k.r), Latest(ledger, TaskDone, k.r), Read(ledger, Consuming(k));
            if !Entitled(p, p.workspace.value, p.task.value, k.actor, k.now) then d.Err?
            else if consumed.Some? then d == if done.Some? then Ok(Replay(done.value)) else Err(ConsumedWithoutDone)
            else if applied.Some? && !DoneElsewhere(ledger, k.r, p.workspace, p.task)
                    && IsDeployed(k.deployed, p, applied.value.payload)
            then d == Ok(Append(TerminalFor(k, p, applied.value.payload.after)))
            else d.Err?
  {
    hide Latest, DoneElsewhere, TerminalFor;
  }

  /**
   A consume appends its two rows exactly if the authorized actor consumes, in time and naming its workspace or none, a
   receipt that is applied and no more, whose task has no other terminal and whose item is deployed as applied; a
   consumed receipt is answered with its own last `task.done`; all else is refused.
   */
  lemma ConsumeExactly(ledger: Ledger, k: ConsumeCall)
    requires LedgerInv(ledger)
    ensures var s, d := Chain(ledger, k.r), Read(ledger, Consuming(k));
            if s == [] || (k.expectedWorkspace.Some? && k.expectedWorkspace != s[0].payload.workspace)
               || !Entitled(s[0].payload, s[0].payload.workspace.GetOr(""), s[0].payload.task.GetOr(""), k.actor, k.now)
            then d.Err?
            else if |s| == 4
            then exists i :: 0 <= i < |ledger| && IsLastDone(ledger, i, k.r) && d == Ok(Replay(ledger[i]))
            else if |s| == 3 && !TakenByAnother(ledger, k.r, s[0].payload)
                    && IsDeployed(k.deployed, s[0].payload, s[2].payload)
            then d == Ok(Append(TerminalOf(k, s[0].payload, s[2].payload)))
            else d.Err?
  {
    StagesOf(ledger, k.r);
    var s := Chain(ledger, k.r);
    if s != [] && (k.expectedWorkspace.Some? ==> k.expectedWorkspace == s[0].payload.workspace) {
      ConsumeReads(ledger, k, s[0].payload);
      LastDone(ledger, k.r);
      if |s| == 4 {
        var i := DoneOf(ledger, k.r);
      }
      assert TakenByAnother(ledger, k.r, s[0].payload) <==>
          DoneElsewhere(ledger, k.r, s[0].payload.workspace, s[0].payload.task);
      hide LedgerInv, Chain, Read, Entitled, IsDeployed, TakenByAnother, DoneElsewhere;
    } else {
      hide LedgerInv, Chain;
    }
  }

  // ---------------------------------------------------------------- every recorded stage was decided so

  /** The event is what a pending write appends. */
  predicate IsFrom(e: Event, w: Write) {
    match w
    case One(x) => e == x
    case Terminal(done, consumed) => e == Named(done, consumed)
  }

  lemma CommitAdds(ledger: Ledger, w: Write, i: nat)
    requires LedgerInv(ledger) && WriteOk(ledger, w) && |ledger| <= i < |Commit(ledger, w)|
    requires Commit(ledger, w)[i].kind.Completion?
    ensures IsFrom(Commit(ledger, w)[i], w)
  {
    match w
    case One(e) => CommitOneIs(ledger, e);
    case Terminal(done, consumed) => CommitTerminalIsPair(ledger, done, consumed);
  }

  lemma {:induction false} WasPending(run: seq<System>, moves: seq<Move>, n: nat, i: nat) returns (j: nat)
    requires IsRun(run, moves) && n < |run| && i < |run[n].ledger| && run[n].ledger[i].kind.Completion?
    ensures j < |run[n].pending| && IsFrom(run[n].ledger[i], run[n].pending[j])
  {
    hide LedgerInv, WriteOk, Read, Commit, IsFrom;
    assert n > 0;
    RunKeeps(run, moves, n - 1);
    assert Moved(run, moves, n - 1);
    RunGrows(run, moves, n - 1, n);
    if i < |run[n - 1].ledger| {
      j := WasPending(run, moves, n - 1, i);
    } else {
      j := moves[n - 1].i;
      CommitAdds(run[n - 1].ledger, run[n - 1].pending[j], i);
    }
  }

  /** The decision that a recorded stage rests on: what the call was and what held when it read. */
  predicate DecidedBy(ledger: Ledger, call: Call, e: Event) {
    match call
    case Preparing(c) => MayAuthorize(ledger, c) && e == AuthorizationOf(c)
    case Claiming(c) =>
      var s := Chain(ledger, c.r);
      && |s| == 1 && Entitled(s[0].payload, c.workspace, c.task, c.actor, c.now)
      && Some(c.before) == s[0].payload.harness
      && e == StageOf(c.newId, c.r, Claimed, c.workspace, c.task, c.actor, Some(c.before), Some(c.expectedAfter), None)
    case Applying(a) =>
      var s := Chain(ledger, a.r);
      && |s| == 2 && Entitled(s[0].payload, a.workspace, a.task, a.actor, a.now)
      && s[1].payload.expectedAfter == Some(a.after)
      && e == StageOf(a.newId, a.r, Applied, a.workspace, a.task, a.actor, s[0].payload.harness, None, Some(a.after))
    case Consuming(k) =>
      var s := Chain(ledger, k.r);
      && |s| == 3 && (k.expectedWorkspace.Some? ==> k.expectedWorkspace == s[0].payload.workspace)
      && Entitled(s[0].payload, s[0].payload.workspace.GetOr(""), s[0].payload.task.GetOr(""), k.actor, k.now)
      && !TakenByAnother(ledger, k.r, s[0].payload) && IsDeployed(k.deployed, s[0].payload, s[2].payload)
      && e.kind == Completion(Consumed) && e.id == k.newId && e.key == ReceiptKey(k.r, Consumed)
      && e.workspace == s[0].payload.workspace && e.task == s[0].payload.task && e.payload.doneId == Some(k.doneId)
  }

  lemma DecisionOf(ledger: Ledger, call: Call, w: Write, e: Event)
    requires LedgerInv(ledger) && Read(ledger, call) == Ok(Append(w)) && IsFrom(e, w)
    ensures DecidedBy(ledger, call, e)
  {
    hide Read, LedgerInv, Chain, Entitled, TakenByAnother, IsDeployed, MayAuthorize;
    match call
    case Preparing(c) => PrepareExactly(ledger, c);
    case Claiming(c) => ClaimExactly(ledger, c);
    case Applying(a) => ApplyExactly(ledger, a);
    case Consuming(k) => ConsumeExactly(ledger, k);
  }

  /** The kind of call that decides a stage. */
  predicate Decides(call: Call, stage: Stage) {
    match call
    case Preparing(_) => stage == Authorized
    case Claiming(_) => stage == Claimed
    case Applying(_) => stage == Applied
    case Consuming(_) => stage == Consumed
  }

  /**
   However reads and appends interleave: every receipt event on record was decided by an earlier read of the call of its
   stage, at which everything that call must check held, and it records exactly what that call read and was given.  So
   each authorization passed both closeout gates and carries the fingerprint of the item then read.
   */
  lemma EveryStageWasDecided(run: seq<System>, moves: seq<Move>, n: nat, i: nat) returns (k: nat)
    requires IsRun(run, moves) && n < |run| && i < |run[n].ledger| && run[n].ledger[i].kind.Completion?
    ensures k < n && moves[k].Reads? && Decides(moves[k].call, run[n].ledger[i].kind.stage)
    ensures DecidedBy(run[k].ledger, moves[k].call, run[n].ledger[i])
  {
    hide Inv, Read, Commit, IsFrom;
    var j := WasPending(run, moves, n, i);
    k := ReadOf(run, moves, n, j);
    LedgerInvIn(run, moves, k);
    DecisionOf(run[k].ledger, moves[k].call, run[n].pending[j], run[n].ledger[i]);
  }

  lemma LedgerInvIn(run: seq<System>, moves: seq<Move>, n: nat)
    requires IsRun(run, moves) && n < |run|
    ensures LedgerInv(run[n].ledger)
  {
    RunKeeps(run, moves, n);
  }
}
