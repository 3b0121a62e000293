/**
 The files command of a coding host: preflight, claim, checklist write, apply, each a separate step, with crashes
 anywhere.

 The host may die between any two steps and the command is then started over; other receipts' events may reach the
 ledger at any time.  The checklist item is otherwise unchanged.
 */
module FilesCommand {
  import opened Text
  import opened Receipts
  import opened ReceiptProtocol

  /** One invocation; an empty workspace or task is one the operator did not give. */
  datatype Invocation = Invocation(workspace: string, task: string, actor: string, verification: string)

  datatype FilesError =
    | NoAuthorization | ChainBroken(reason: Reason) | OtherWorkspace | OtherTask | Expired | Unnamed | ItemNotFound
    | Refused(error: ReceiptError) | InvalidClaimResult | NoVerification | Drifted | UnderOtherReceipt
      | PostWriteMismatch

  /** What the claim result confirms, and the checklist write is bound to. */
  datatype Evidence = Evidence(before: Fingerprint, after: Fingerprint)

  datatype Phase =
    | Idle
    | Reserving(v: Invocation, workspace: string, task: string, before: Fingerprint, after: Fingerprint)
    | Writing(v: Invocation, workspace: string, task: string, after: Fingerprint, evidence: Evidence)
    | Acknowledging(v: Invocation, workspace: string, task: string, after: Fingerprint)
    | Finished
    | Failed(error: FilesError)

  datatype Host = Host(ledger: Ledger, item: Item, phase: Phase)

  datatype Step =
    | Start(v: Invocation, now: int)
    | Claim(now: int, id: string)
    | Mark(stamp: string)
    | Apply(now: int, id: string)
                | Crash | Others(ledger: Ledger)

  // ---------------------------------------------------------------- the steps

  predicate WindowClosed(expires: Expiry, now: int) {
    expires.Malformed? || (expires.At? && now > expires.time)
  }

  /** Only an unclaimed receipt is turned away for its age here. */
  function AdmitInvocation(ledger: Ledger, r: ReceiptId, v: Invocation, now: int): Result<Derived, FilesError> {
    match Derive(ledger, r)
    case NoReceipt => Err(FilesError.NoAuthorization)
    case Broken(reason) => Err(ChainBroken(reason))
    case Sound(s) =>
      if v.workspace != "" && Truthy(s.workspace) && s.workspace != Some(v.workspace) then Err(OtherWorkspace)
      else if v.task != "" && Truthy(s.task) && s.task != Some(v.task) then Err(OtherTask)
      else if s.status == Authorized && WindowClosed(s.expires, now) then Err(Expired)
      else Ok(s)
  }

  function AfterStart(h: Host, r: ReceiptId, v: Invocation, now: int): Phase {
    match AdmitInvocation(h.ledger, r, v, now)
    case Err(e) => Failed(e)
    case Ok(s) =>
      var workspace := if Truthy(s.workspace) then s.workspace.value else v.workspace;
      var task := if Truthy(s.task) then s.task.value else v.task;
      if workspace == "" || task == "" then Failed(Unnamed)
      else if h.item.id != Some(task) then Failed(ItemNotFound)
      else Reserving(v, workspace, task, Print(h.item), Print(WouldBeDone(h.item)))
  }

  /** The fingerprints of a replayed claim are those on record. */
  function Recorded(p: Payload, expected: Fingerprint): Option<Evidence> {
    var after := if Given(p.expectedAfter) then p.expectedAfter else if Given(p.after) then p.after else Some(expected);
    if Given(p.before) && Given(after) then Some(Evidence(p.before.value, after.value)) else None
  }

  function ClaimOf(r: ReceiptId, p: Phase, now: int, id: string): ClaimCall
    requires p.Reserving?
  {
    ClaimCall(r, p.workspace, p.task, p.v.actor, p.before, p.after, id, now)
  }

  function AfterClaim(h: Host, p: Phase, answer: Result<Decision, ReceiptError>): Host
    requires p.Reserving?
  {
    match answer
    case Err(e) => h.(phase := Failed(Refused(e)))
    case Ok(Append(w)) =>
      h.(ledger := Commit(h.ledger, w),
         phase := Writing(p.v, p.workspace, p.task, p.after, Evidence(p.before, p.after)))
    case Ok(Replay(e)) =>
      var evidence := Recorded(e.payload, p.after);
      h.(phase := if evidence.None? then Failed(InvalidClaimResult)
                  else Writing(p.v, p.workspace, p.task, p.after, evidence.value))
  }

  /** The checklist item once marked done under a receipt: lifecycle, ownership, verification and receipt metadata. */
  function MarkDone(item: Item, verification: string, r: ReceiptId, after: Fingerprint, stamp: string): Item {
    item.(status := Some("done"), workflow := Some(Workflow(Some("closed"), Branch(item))),
          owner := None, session := None,
          lease := (if item.lease.Some? && !Truthy(item.lease.value) then Some(Some(stamp)) else item.lease),
          verification := verification, metadata := Some(Metadata(Some(r), Some(after))))
  }

  function EffectiveVerification(item: Item, given: string): string {
    if Strip(given) != "" then Strip(given) else Strip(item.verification)
  }

  /** The checklist write, given the effective verification. */
  function MarkDoneFiles(item: Item, verification: string, r: ReceiptId, e: Evidence, stamp: string)
    : Result<Item, FilesError>
  {
    if verification == "" then Err(NoVerification)
    else if IsDoneClosed(item) then
      if Print(item) != e.after then Err(Drifted)
      else if item.metadata.None? || item.metadata.value.receipt != Some(r) then Err(UnderOtherReceipt)
      else if item.metadata.value.after != Some(e.after) then Err(Drifted)
      else Ok(item)
    else if Print(item) != e.before then Err(Drifted)
    else
      var marked := MarkDone(item, verification, r, e.after, stamp);
      if Print(marked) != e.after then Err(PostWriteMismatch) else Ok(marked)
  }

  function AfterWrite(h: Host, r: ReceiptId, p: Phase, stamp: string): Host
    requires p.Writing?
  {
    match MarkDoneFiles(h.item, EffectiveVerification(h.item, p.v.verification), r, p.evidence, stamp)
    case Err(e) => h.(phase := Failed(e))
    case Ok(item) => h.(item := item, phase := Acknowledging(p.v, p.workspace, p.task, p.after))
  }

  function ApplyOf(r: ReceiptId, p: Phase, now: int, id: string): ApplyCall
    requires p.Acknowledging?
  {
    ApplyCall(r, p.workspace, p.task, p.v.actor, p.after, id, now)
  }

  function AfterApply(h: Host, answer: Result<Decision, ReceiptError>): Host {
    match answer
    case Err(e) => h.(phase := Failed(Refused(e)))
    case Ok(Append(w)) => h.(ledger := Commit(h.ledger, w), phase := Finished)
    case Ok(Replay(_)) => h.(phase := Finished)
  }

  /** What may happen to the ledger beside the command: nothing to this receipt. */
  ghost predicate Beside(before: Ledger, after: Ledger, r: ReceiptId) {
    LedgerInv(after) && Chain(after, r) == Chain(before, r)
  }

  ghost predicate StepOk(h: Host, r: ReceiptId, s: Step) {
    match s
    case Start(_, _) => h.phase.Idle? || h.phase.Finished? || h.phase.Failed?
    case Claim(_, id) => h.phase.Reserving? && !HasId(h.ledger, id)
    case Mark(stamp) => h.phase.Writing? && stamp != ""
    case Apply(_, id) => h.phase.Acknowledging? && !HasId(h.ledger, id)
    case Crash => true
    case Others(after) => Beside(h.ledger, after, r)
  }

  function NextHost(h: Host, r: ReceiptId, s: Step): Host
    requires s.Claim? ==> h.phase.Reserving?
    requires s.Mark? ==> h.phase.Writing?
    requires s.Apply? ==> h.phase.Acknowledging?
  {
    match s
    case Start(v, now) => h.(phase := AfterStart(h, r, v, now))
    case Claim(now, id) => AfterClaim(h, h.phase, ReadClaim(h.ledger, ClaimOf(r, h.phase, now, id)))
    case Mark(stamp) => AfterWrite(h, r, h.phase, stamp)
    case Apply(now, id) => AfterApply(h, ReadApply(h.ledger, ApplyOf(r, h.phase, now, id)))
    case Crash => h.(phase := Idle)
    case Others(after) => h.(ledger := after)
  }

  // ---------------------------------------------------------------- what every run keeps

  /** The item carries a terminal mark of this very receipt. */
  predicate Carries(item: Item, r: ReceiptId) {
    item.metadata == Some(Metadata(Some(r), Some(Print(item))))
  }

  /** The item as this receipt's write leaves it, from the item the receipt was prepared over. */
  predicate Landed(item: Item, start: Item, r: ReceiptId) {
    && IsDoneClosed(item) && Carries(item, r) && Print(item) == Print(WouldBeDone(start))
    && if IsDoneClosed(start) then item == start else OwnershipReleased(item) && Strip(item.verification) != ""
  }

  /** The chain of a receipt prepared over `start`, and claimed and applied by this command only. */
  predicate ChainFrom(c: seq<Event>, start: Item) {
    && 1 <= |c| <= 3 && c[0].payload.harness == Some(Print(start))
    && (|c| > 1 ==> c[1].payload.expectedAfter == Some(Print(WouldBeDone(start))))
  }

  predicate PhaseOk(p: Phase, c: seq<Event>, item: Item, start: Item, r: ReceiptId)
    requires c != []
  {
    match p
    case Idle => true
    case Failed(_) => true
    case Reserving(_, _, _, before, after) => before == Print(item) && after == Print(WouldBeDone(start))
    case Writing(_, workspace, task, after, evidence) =>
      |c| > 1 && NamedBy(c, workspace, task) && evidence == Evidence(Print(start), after)
        && after == Print(WouldBeDone(start))
    case Acknowledging(_, workspace, task, after) =>
      |c| > 1 && NamedBy(c, workspace, task) && Landed(item, start, r) && after == Print(WouldBeDone(start))
    case Finished => |c| == 3 && Landed(item, start, r)
  }

  predicate NamedBy(c: seq<Event>, workspace: string, task: string)
    requires c != []
  {
    c[0].payload.workspace == Some(workspace) && c[0].payload.task == Some(task)
  }

  ghost predicate HostInv(h: Host, r: ReceiptId, start: Item) {
    var c := Chain(h.ledger, r);
    && LedgerInv(h.ledger) && ChainFrom(c, start)
    && (h.item == start || (|c| > 1 && Landed(h.item, start, r)))
    && (|c| == 3 ==> Landed(h.item, start, r))
    && PhaseOk(h.phase, c, h.item, start, r)
  }

  /** Marking done twice is marking done once, and keeps the fingerprint's task and branch. */
  lemma WouldBeDoneAgain(item: Item)
    ensures Print(WouldBeDone(WouldBeDone(item))) == Print(WouldBeDone(item))
    ensures IsDoneClosed(item) <==> Print(item) == Print(WouldBeDone(item))
  {
  }

  lemma LandedPrint(item: Item, start: Item, r: ReceiptId)
    requires item == start || Landed(item, start, r)
    ensures Print(WouldBeDone(item)) == Print(WouldBeDone(start))
  {
  }

  /** What the derivation reports for a chain the protocol built. */
  lemma PreflightSees(ledger: Ledger, r: ReceiptId, start: Item)
    requires LedgerInv(ledger) && ChainFrom(Chain(ledger, r), start)
    ensures var c := Chain(ledger, r);
            && Derive(ledger, r).Sound? && Derive(ledger, r).state.workspace == c[0].payload.workspace
            && Derive(ledger, r).state.task == c[0].payload.task && Derive(ledger, r).state.status == Order(|c| - 1)
            && Derive(ledger, r).state.expires == c[0].payload.expires
  {
    var c := Chain(ledger, r);
    assert ChainBuilt(ledger, r);
    BuiltIsLinked(ledger, r, c);
    DerivationMeaning(ledger, r);
    assert Fits(ledger, r, c, 0, c[0]);
    forall i | 0 <= i < |c| ensures Workspaces(c)[i] == Workspaces(c)[0] && Tasks(c)[i] == Tasks(c)[0] {
      assert Fits(ledger, r, c, i, c[i]);
    }
    AllSame(Workspaces(c));
    AllSame(Tasks(c));
  }

  lemma StartKeeps(h: Host, r: ReceiptId, start: Item, v: Invocation, now: int)
    requires HostInv(h, r, start)
    ensures HostInv(NextHost(h, r, Start(v, now)), r, start)
  {
    PreflightSees(h.ledger, r, start);
    LandedPrint(h.item, start, r);
  }

  lemma ClaimKeeps(h: Host, r: ReceiptId, start: Item, now: int, id: string)
    requires HostInv(h, r, start) && StepOk(h, r, Claim(now, id))
    ensures HostInv(NextHost(h, r, Claim(now, id)), r, start)
  {
    hide ReadClaim, LedgerInv, Chain, Landed;
    var call, c := ClaimOf(r, h.phase, now, id), Chain(h.ledger, r);
    ClaimOutcome(h.ledger, call, start);
    if ClaimAnswer(c, call).Ok? {
      if |c| == 1 {
        ClaimLands(h.ledger, call);
        ClaimedFrom(c, call, start);
      } else {
        Links(h.ledger, r);
        ReplayedFrom(c, call, start);
      }
    }
  }

  lemma ClaimedFrom(c: seq<Event>, call: ClaimCall, start: Item)
    requires ChainFrom(c, start) && |c| == 1 && call.expectedAfter == Print(WouldBeDone(start))
    requires ClaimAnswer(c, call).Ok?
    ensures ChainFrom(c + [ClaimedEvent(call)], start) && NamedBy(c, call.workspace, call.task)
    ensures call.before == Print(start)
  {
  }

  lemma ReplayedFrom(c: seq<Event>, call: ClaimCall, start: Item)
    requires ChainFrom(c, start) && |c| > 1 && call.expectedAfter == Print(WouldBeDone(start))
    requires ClaimAnswer(c, call).Ok?
    requires c[1].payload.before == c[0].payload.harness
    requires |c| > 2 ==> c[2].payload.before == c[0].payload.harness && c[2].payload.after == c[1].payload.expectedAfter
    requires |c| > 2 ==> c[2].payload.expectedAfter.None?
    ensures NamedBy(c, call.workspace, call.task)
    ensures Recorded(c[|c| - 1].payload, call.expectedAfter) == Some(Evidence(Print(start), call.expectedAfter))
  {
  }

  /** Where a receipt's stages stand while it is not consumed. */
  lemma Stages(ledger: Ledger, r: ReceiptId)
    requires LedgerInv(ledger) && 1 <= |Chain(ledger, r)| <= 3
    ensures var c := Chain(ledger, r);
            && Latest(ledger, Completion(Authorized), r) == Some(c[0]) && Latest(ledger, Completion(Consumed), r).None?
            && Latest(ledger, Completion(Stage.Claimed), r) == (if |c| > 1 then Some(c[1]) else None)
            && Latest(ledger, Completion(Applied), r) == if |c| > 2 then Some(c[2]) else None
  {
    assert ChainBuilt(ledger, r);
    StageRecorded(ledger, r, Authorized);
    StageRecorded(ledger, r, Stage.Claimed);
    StageRecorded(ledger, r, Applied);
    StageRecorded(ledger, r, Consumed);
  }

  /** How the fingerprints of a chain are linked. */
  lemma Links(ledger: Ledger, r: ReceiptId)
    requires LedgerInv(ledger) && 1 <= |Chain(ledger, r)| <= 3
    ensures var c := Chain(ledger, r);
            && (|c| > 1 ==> c[1].payload.before == c[0].payload.harness)
            && (|c| > 2 ==>
                  c[2].payload.before == c[0].payload.harness && c[2].payload.after == c[1].payload.expectedAfter)
            && (|c| > 2 ==> c[2].payload.expectedAfter.None?)
  {
    var c := Chain(ledger, r);
    assert ChainBuilt(ledger, r);
    if |c| > 1 { assert Fits(ledger, r, c, 1, c[1]); }
    if |c| > 2 { assert Fits(ledger, r, c, 2, c[2]); }
  }

  /** The shape of every claim's answer: the binding, then the fingerprints the caller may report, then the decision. */
  function Answer(p: Payload, call: ClaimCall, known: set<Option<Fingerprint>>, d: Decision)
    : Result<Decision, ReceiptError>
  {
    var refusal := BindingRefusal(p, call.workspace, call.task, call.actor, call.now);
    if refusal.Some? then Err(refusal.value) else if Some(call.before) !in known then Err(BeforeMismatch) else Ok(d)
  }

  /** What a claim of the expected after-fingerprint answers, by the length of the chain. */
  function ClaimAnswer(c: seq<Event>, call: ClaimCall): Result<Decision, ReceiptError>
    requires 1 <= |c| <= 3
  {
    var p := c[0].payload;
    if |c| == 1 then Answer(p, call, {p.harness}, Append(One(ClaimedEvent(call))))
    else Answer(p, call, {p.harness, Some(call.expectedAfter)}, Replay(c[|c| - 1]))
  }

  lemma ClaimOutcome(ledger: Ledger, call: ClaimCall, start: Item)
    requires LedgerInv(ledger) && ChainFrom(Chain(ledger, call.r), start)
    requires call.expectedAfter == Print(WouldBeDone(start))
    ensures ReadClaim(ledger, call) == ClaimAnswer(Chain(ledger, call.r), call)
  {
    Stages(ledger, call.r);
    Links(ledger, call.r);
    ClaimOnStages(ledger, call, Chain(ledger, call.r));
  }

  lemma ClaimOnStages(ledger: Ledger, call: ClaimCall, c: seq<Event>)
    requires 1 <= |c| <= 3 && (|c| > 1 ==> c[1].payload.expectedAfter == Some(call.expectedAfter))
    requires |c| > 1 ==> c[1].payload.before == c[0].payload.harness
    requires |c| > 2 ==> c[2].payload.before == c[0].payload.harness && c[2].payload.after == c[1].payload.expectedAfter
    requires Latest(ledger, Completion(Authorized), call.r) == Some(c[0])
    requires Latest(ledger, Completion(Consumed), call.r).None?
    requires Latest(ledger, Completion(Stage.Claimed), call.r) == (if |c| > 1 then Some(c[1]) else None)
    requires Latest(ledger, Completion(Applied), call.r) == if |c| > 2 then Some(c[2]) else None
    ensures ReadClaim(ledger, call) == ClaimAnswer(c, call)
  {
    if |c| == 1 {
      ClaimFresh(ledger, call, c[0].payload);
    } else if |c| == 2 {
      ClaimAgain(ledger, call, c[0].payload, c[1]);
    } else {
      ClaimApplied(ledger, call, c[0].payload, c[2]);
    }
  }

  lemma ClaimFresh(ledger: Ledger, call: ClaimCall, p: Payload)
    requires var latest := Latest(ledger, Completion(Authorized), call.r); latest.Some? && latest.value.payload == p
    requires Latest(ledger, Completion(Consumed), call.r).None? && Latest(ledger, Completion(Applied), call.r).None?
    requires Latest(ledger, Completion(Stage.Claimed), call.r).None?
    ensures ReadClaim(ledger, call) == Answer(p, call, {p.harness}, Append(One(ClaimedEvent(call))))
  {
  }

  lemma ClaimAgain(ledger: Ledger, call: ClaimCall, p: Payload, claimed: Event)
    requires var latest := Latest(ledger, Completion(Authorized), call.r); latest.Some? && latest.value.payload == p
    requires Latest(ledger, Completion(Consumed), call.r).None? && Latest(ledger, Completion(Applied), call.r).None?
    requires Latest(ledger, Completion(Stage.Claimed), call.r) == Some(claimed)
    requires claimed.payload.expectedAfter == Some(call.expectedAfter)
    ensures ReadClaim(ledger, call) ==
              Answer(p, call, {claimed.payload.before, Some(call.expectedAfter)}, Replay(claimed))
  {
  }

  lemma ClaimApplied(ledger: Ledger, call: ClaimCall, p: Payload, applied: Event)
    requires var latest := Latest(ledger, Completion(Authorized), call.r); latest.Some? && latest.value.payload == p
    requires Latest(ledger, Completion(Consumed), call.r).None?
    requires Latest(ledger, Completion(Applied), call.r) == Some(applied)
    requires applied.payload.after == Some(call.expectedAfter)
    ensures ReadClaim(ledger, call) ==
              Answer(p, call, {applied.payload.before, Some(call.expectedAfter)}, Replay(applied))
  {
  }

  /** A decided claim is appended, under its new id. */
  lemma ClaimLands(ledger: Ledger, call: ClaimCall)
    requires LedgerInv(ledger) && |Chain(ledger, call.r)| == 1 && !HasId(ledger, call.newId)
    requires ReadClaim(ledger, call).Ok? && ReadClaim(ledger, call).value.Append?
    ensures var after := Commit(ledger, ReadClaim(ledger, call).value.write);
            LedgerInv(after) && Chain(after, call.r) == Chain(ledger, call.r) + [ClaimedEvent(call)]
  {
    assert ChainBuilt(ledger, call.r);
    ClaimChecked(ledger, call);
    ReadClaimDecides(ledger, call);
    StageRecorded(ledger, call.r, Stage.Claimed);
    CommitOneKeeps(ledger, ClaimedEvent(call));
    ChainOfAppend(ledger, ClaimedEvent(call), call.r);
  }

  lemma SolidText(s: string)
    requires s != "" && !IsSpace(s[0])
    ensures Strip(s) != ""
  {
    assert StripLeft(s) == s;
    assert !(forall i | |StripRight(s)| <= i < |s| :: IsSpace(s[i])) || StripRight(s) != "";
  }

  lemma EffectiveIsSolid(item: Item, given: string)
    ensures var v := EffectiveVerification(item, given); v != "" ==> Strip(v) != ""
  {
    var v := EffectiveVerification(item, given);
    if v != "" {
      SolidText(v);
    }
  }

  /**
   What the checklist write answers: it lands unless there is no verification, or the item was finished without this
   receipt.
   */
  lemma WriteOutcome(item: Item, start: Item, verification: string, r: ReceiptId, stamp: string)
    requires (item == start || Landed(item, start, r)) && stamp != ""
    requires verification != "" ==> Strip(verification) != ""
    ensures var outcome :=
              MarkDoneFiles(item, verification, r, Evidence(Print(start), Print(WouldBeDone(start))), stamp);
            && (outcome.Ok? <==> verification != "" && (IsDoneClosed(start) ==> Carries(start, r)))
            && (outcome.Ok? ==> Landed(outcome.value, start, r))
  {
    WouldBeDoneAgain(start);
    if !IsDoneClosed(item) {
      WriteFresh(start, verification, r, stamp);
    }
  }

  lemma WriteFresh(item: Item, verification: string, r: ReceiptId, stamp: string)
    requires !IsDoneClosed(item) && stamp != ""
    ensures var after := Print(WouldBeDone(item));
            MarkDoneFiles(item, verification, r, Evidence(Print(item), after), stamp) ==
              if verification == "" then Err(NoVerification) else Ok(MarkDone(item, verification, r, after, stamp))
    ensures var marked := MarkDone(item, verification, r, Print(WouldBeDone(item)), stamp);
            IsDoneClosed(marked) && Carries(marked, r) && Print(marked) == Print(WouldBeDone(item))
              && OwnershipReleased(marked)
  {
  }

  lemma WriteKeeps(h: Host, r: ReceiptId, start: Item, stamp: string)
    requires HostInv(h, r, start) && StepOk(h, r, Mark(stamp))
    ensures HostInv(NextHost(h, r, Mark(stamp)), r, start)
  {
    EffectiveIsSolid(h.item, h.phase.v.verification);
    WriteOutcome(h.item, start, EffectiveVerification(h.item, h.phase.v.verification), r, stamp);
  }

  /** What an apply of the claimed fingerprint answers. */
  lemma ApplyOutcome(ledger: Ledger, call: ApplyCall, start: Item)
    requires LedgerInv(ledger) && ChainFrom(Chain(ledger, call.r), start) && |Chain(ledger, call.r)| > 1
    requires call.after == Print(WouldBeDone(start))
    ensures var c, outcome := Chain(ledger, call.r), ReadApply(ledger, call);
            && (outcome.Ok? <==> BindingRefusal(c[0].payload, call.workspace, call.task, call.actor, call.now).None?)
            && (outcome.Ok? && |c| == 2 ==> outcome.value == Append(One(AppliedEvent(call, c[1].payload.before))))
            && (outcome.Ok? && |c| == 3 ==> outcome.value.Replay?)
  {
    var c := Chain(ledger, call.r);
    assert ChainBuilt(ledger, call.r);
    Stages(ledger, call.r);
    if |c| > 2 { assert Fits(ledger, call.r, c, 2, c[2]); }
  }

  lemma ApplyLands(ledger: Ledger, call: ApplyCall)
    requires LedgerInv(ledger) && |Chain(ledger, call.r)| == 2 && !HasId(ledger, call.newId)
    requires ReadApply(ledger, call).Ok? && ReadApply(ledger, call).value.Append?
    ensures var c, w := Chain(ledger, call.r), ReadApply(ledger, call).value.write;
            w == One(AppliedEvent(call, c[1].payload.before)) && LedgerInv(Commit(ledger, w))
            && Chain(Commit(ledger, w), call.r) == c + [w.event]
  {
    assert ChainBuilt(ledger, call.r);
    StageRecorded(ledger, call.r, Stage.Claimed);
    StageRecorded(ledger, call.r, Applied);
    ApplyChecked(ledger, call);
    ReadApplyDecides(ledger, call);
    var e := AppliedEvent(call, Chain(ledger, call.r)[1].payload.before);
    CommitOneKeeps(ledger, e);
    ChainOfAppend(ledger, e, call.r);
  }

  lemma ApplyKeeps(h: Host, r: ReceiptId, start: Item, now: int, id: string)
    requires HostInv(h, r, start) && StepOk(h, r, Apply(now, id))
    ensures HostInv(NextHost(h, r, Apply(now, id)), r, start)
  {
    var p := h.phase;
    var call := ApplyCall(r, p.workspace, p.task, p.v.actor, p.after, id, now);
    ApplyOutcome(h.ledger, call, start);
    if ReadApply(h.ledger, call).Ok? && ReadApply(h.ledger, call).value.Append? {
      ApplyLands(h.ledger, call);
    }
  }

  lemma StepKeeps(h: Host, r: ReceiptId, start: Item, s: Step)
    requires HostInv(h, r, start) && StepOk(h, r, s)
    ensures HostInv(NextHost(h, r, s), r, start)
  {
    match s
    case Start(v, now) => StartKeeps(h, r, start, v, now);
    case Claim(now, id) => ClaimKeeps(h, r, start, now, id);
    case Mark(stamp) => WriteKeeps(h, r, start, stamp);
    case Apply(now, id) => ApplyKeeps(h, r, start, now, id);
    case Crash =>
    case Others(after) =>
  }

  // ---------------------------------------------------------------- runs with crashes

  /**
   From a freshly authorized receipt: any steps of any invocations, crashes and restarts, and other receipts' events
   between them.
   */
  ghost predicate IsFilesRun(run: seq<Host>, steps: seq<Step>, r: ReceiptId, start: Item) {
    && |run| == |steps| + 1
    && LedgerInv(run[0].ledger) && |Chain(run[0].ledger, r)| == 1
    && Chain(run[0].ledger, r)[0].payload.harness == Some(Print(start))
    && run[0].item == start && run[0].phase == Idle
    && forall i | 0 <= i < |steps| :: Took(run, steps, r, i)
  }

  ghost predicate Took(run: seq<Host>, steps: seq<Step>, r: ReceiptId, i: nat)
    requires |run| == |steps| + 1 && i < |steps|
  {
    StepOk(run[i], r, steps[i]) && run[i + 1] == NextHost(run[i], r, steps[i])
  }

  /**
   Whatever crashed when: the checklist item is the original or this receipt's finished one, and the ledger is a
   beginning of its lifecycle.
   */
  lemma {:induction false} FilesRunKeeps(run: seq<Host>, steps: seq<Step>, r: ReceiptId, start: Item, n: nat)
    requires IsFilesRun(run, steps, r, start) && n < |run|
    ensures HostInv(run[n], r, start)
  {
    if n > 0 {
      hide HostInv, NextHost, StepOk;
      FilesRunKeeps(run, steps, r, start, n - 1);
      assert Took(run, steps, r, n - 1);
      StepKeeps(run[n - 1], r, start, steps[n - 1]);
    }
  }

  /** The invocation is the receipt's own: it names its workspace, task and actor, and a verification is there. */
  predicate Entitled(p: Payload, v: Invocation, item: Item) {
    && Truthy(p.workspace) && v.workspace in {"", p.workspace.value}
    && Truthy(p.task) && v.task in {"", p.task.value}
    && p.authorizedActor == Some(v.actor)
    && EffectiveVerification(item, v.verification) != ""
  }

  /** The invocation a phase belongs to. */
  function Of(p: Phase): Option<Invocation> {
    match p
    case Reserving(v, _, _, _, _) => Some(v)
    case Writing(v, _, _, _, _) => Some(v)
    case Acknowledging(v, _, _, _) => Some(v)
    case _ => None
  }

  function Left(p: Phase): int {
    match p
    case Reserving(_, _, _, _, _) => 3
    case Writing(_, _, _, _, _) => 2
    case Acknowledging(_, _, _, _) => 1
    case Finished => 0
    case _ => -1
  }

  /** The command is under way, or done, and nothing but its age can stop it. */
  ghost predicate OnCourse(h: Host, r: ReceiptId, start: Item) {
    && HostInv(h, r, start) && Left(h.phase) >= 0
    && (Of(h.phase).Some? ==> Entitled(Chain(h.ledger, r)[0].payload, Of(h.phase).value, h.item))
    && (h.phase.Reserving? ==> NamedBy(Chain(h.ledger, r), h.phase.workspace, h.phase.task))
    && (IsDoneClosed(start) ==> Carries(start, r))
  }

  function TimeOf(s: Step): Option<int> {
    match s
    case Start(_, now) => Some(now)
    case Claim(now, _) => Some(now)
    case Apply(now, _) => Some(now)
    case _ => None
  }

  predicate InTime(p: Payload, s: Step) {
    TimeOf(s).Some? ==> !WindowClosed(p.expires, TimeOf(s).value)
  }

  lemma StartsOnCourse(h: Host, r: ReceiptId, start: Item, v: Invocation, now: int)
    requires HostInv(h, r, start) && Entitled(Chain(h.ledger, r)[0].payload, v, h.item)
    requires IsDoneClosed(start) ==> Carries(start, r)
    requires InTime(Chain(h.ledger, r)[0].payload, Start(v, now))
    ensures OnCourse(NextHost(h, r, Start(v, now)), r, start) && Left(NextHost(h, r, Start(v, now)).phase) == 3
  {
    hide Derive, EffectiveVerification;
    StartKeeps(h, r, start, v, now);
    PreflightSees(h.ledger, r, start);
    assert ChainBuilt(h.ledger, r) && Fits(h.ledger, r, Chain(h.ledger, r), 0, Chain(h.ledger, r)[0]);
  }

  lemma ClaimsOnCourse(h: Host, r: ReceiptId, start: Item, now: int, id: string)
    requires OnCourse(h, r, start) && StepOk(h, r, Claim(now, id))
    requires InTime(Chain(h.ledger, r)[0].payload, Claim(now, id))
    ensures OnCourse(NextHost(h, r, Claim(now, id)), r, start) && Left(NextHost(h, r, Claim(now, id)).phase) == 2
  {
    hide ReadClaim, LedgerInv, Chain, EffectiveVerification, Commit, ClaimedEvent, Recorded;
    ClaimKeeps(h, r, start, now, id);
    var call, c := ClaimOf(r, h.phase, now, id), Chain(h.ledger, r);
    ClaimOutcome(h.ledger, call, start);
    assert BindingRefusal(c[0].payload, call.workspace, call.task, call.actor, now).None?;
    if |c| == 1 {
      ClaimLands(h.ledger, call);
    } else {
      Links(h.ledger, r);
      ReplayedFrom(c, call, start);
    }
  }

  lemma WritesOnCourse(h: Host, r: ReceiptId, start: Item, stamp: string)
    requires OnCourse(h, r, start) && StepOk(h, r, Mark(stamp))
    ensures OnCourse(NextHost(h, r, Mark(stamp)), r, start) && Left(NextHost(h, r, Mark(stamp)).phase) == 1
  {
    var verification := EffectiveVerification(h.item, h.phase.v.verification);
    WriteKeeps(h, r, start, stamp);
    EffectiveIsSolid(h.item, h.phase.v.verification);
    WriteOutcome(h.item, start, verification, r, stamp);
  }

  lemma AppliesOnCourse(h: Host, r: ReceiptId, start: Item, now: int, id: string)
    requires OnCourse(h, r, start) && StepOk(h, r, Apply(now, id))
    requires InTime(Chain(h.ledger, r)[0].payload, Apply(now, id))
    ensures NextHost(h, r, Apply(now, id)).phase == Finished
  {
    ApplyOutcome(h.ledger, ApplyOf(r, h.phase, now, id), start);
  }

  predicate Own(s: Step) {
    s.Claim? || s.Mark? || s.Apply?
  }

  lemma StepOnCourse(h: Host, r: ReceiptId, start: Item, s: Step)
    requires OnCourse(h, r, start) && StepOk(h, r, s) && (Own(s) || s.Others?)
    requires InTime(Chain(h.ledger, r)[0].payload, s)
    ensures OnCourse(NextHost(h, r, s), r, start)
              && Left(NextHost(h, r, s).phase) == Left(h.phase) - if Own(s) then 1 else 0
  {
    StepKeeps(h, r, start, s);
    match s
    case Claim(now, id) => ClaimsOnCourse(h, r, start, now, id);
    case Mark(stamp) => WritesOnCourse(h, r, start, stamp);
    case Apply(now, id) => AppliesOnCourse(h, r, start, now, id);
    case Others(_) =>
  }

  /** No step touches the authorization. */
  lemma StepKeepsFirst(h: Host, r: ReceiptId, start: Item, s: Step)
    requires HostInv(h, r, start) && StepOk(h, r, s)
    ensures Chain(NextHost(h, r, s).ledger, r) != [] && Chain(NextHost(h, r, s).ledger, r)[0] == Chain(h.ledger, r)[0]
  {
    match s
    case Start(_, _) =>
    case Mark(_) =>
    case Crash =>
    case Others(_) =>
    case Claim(now, id) => ClaimKeepsFirst(h, r, start, now, id);
    case Apply(now, id) => ApplyKeepsFirst(h, r, start, now, id);
  }

  lemma ClaimKeepsFirst(h: Host, r: ReceiptId, start: Item, now: int, id: string)
    requires HostInv(h, r, start) && StepOk(h, r, Claim(now, id))
    ensures var next := NextHost(h, r, Claim(now, id));
            Chain(next.ledger, r) != [] && Chain(next.ledger, r)[0] == Chain(h.ledger, r)[0]
  {
    hide ReadClaim, Chain, Landed, LedgerInv;
    var call := ClaimOf(r, h.phase, now, id);
    ClaimOutcome(h.ledger, call, start);
    if ReadClaim(h.ledger, call).Ok? && ReadClaim(h.ledger, call).value.Append? {
      ClaimLands(h.ledger, call);
    }
  }

  lemma ApplyKeepsFirst(h: Host, r: ReceiptId, start: Item, now: int, id: string)
    requires HostInv(h, r, start) && StepOk(h, r, Apply(now, id))
    ensures var next := NextHost(h, r, Apply(now, id));
            Chain(next.ledger, r) != [] && Chain(next.ledger, r)[0] == Chain(h.ledger, r)[0]
  {
    hide ReadApply, Chain, Landed, LedgerInv;
    var call := ApplyOf(r, h.phase, now, id);
    ApplyOutcome(h.ledger, call, start);
    if ReadApply(h.ledger, call).Ok? && ReadApply(h.ledger, call).value.Append? {
      ApplyLands(h.ledger, call);
    }
  }

  function OwnSteps(steps: seq<Step>, from: nat, to: nat): int
    requires from <= to <= |steps|
  {
    if from == to then 0 else OwnSteps(steps, from, to - 1) + if Own(steps[to - 1]) then 1 else 0
  }

  predicate StepOfAttempt(steps: seq<Step>, p: Payload, n: nat, i: nat)
    requires n <= i < |steps|
  {
    InTime(p, steps[i]) && if i == n then steps[i].Start? else Own(steps[i]) || steps[i].Others?
  }

  /** Between `n` and `m` one invocation runs on, undisturbed by crashes and inside the receipt's window. */
  predicate OneAttempt(steps: seq<Step>, p: Payload, n: nat, m: nat)
    requires n < m <= |steps|
  {
    forall i | n <= i < m :: StepOfAttempt(steps, p, n, i)
  }

  /** The authorization of the receipt. */
  function Authorization(h: Host, r: ReceiptId): Payload {
    if Chain(h.ledger, r) == [] then BLANK else Chain(h.ledger, r)[0].payload
  }

  lemma RunStepOnCourse(run: seq<Host>, steps: seq<Step>, r: ReceiptId, start: Item, i: nat)
    requires IsFilesRun(run, steps, r, start) && i < |steps| && OnCourse(run[i], r, start)
    requires (Own(steps[i]) || steps[i].Others?) && InTime(Authorization(run[i], r), steps[i])
    ensures OnCourse(run[i + 1], r, start)
              && Left(run[i + 1].phase) == Left(run[i].phase) - if Own(steps[i]) then 1 else 0
    ensures Authorization(run[i + 1], r) == Authorization(run[i], r)
  {
    assert Took(run, steps, r, i);
    StepKeepsFirst(run[i], r, start, steps[i]);
    StepOnCourse(run[i], r, start, steps[i]);
  }

  lemma RunStartOnCourse(run: seq<Host>, steps: seq<Step>, r: ReceiptId, start: Item, i: nat)
    requires IsFilesRun(run, steps, r, start) && i < |steps| && HostInv(run[i], r, start)
    requires steps[i].Start? && InTime(Authorization(run[i], r), steps[i])
    requires Entitled(Authorization(run[i], r), steps[i].v, run[i].item) && (IsDoneClosed(start) ==> Carries(start, r))
    ensures OnCourse(run[i + 1], r, start) && Left(run[i + 1].phase) == 3
    ensures Authorization(run[i + 1], r) == Authorization(run[i], r)
  {
    assert Took(run, steps, r, i);
    StepKeepsFirst(run[i], r, start, steps[i]);
    StartsOnCourse(run[i], r, start, steps[i].v, steps[i].now);
  }

  lemma {:induction false} CourseHolds(run: seq<Host>, steps: seq<Step>, r: ReceiptId, start: Item, p: Payload, n: nat,
                                       i: nat, m: nat)
    requires IsFilesRun(run, steps, r, start) && n < i <= m < |run| && OneAttempt(steps, p, n, m)
    requires OnCourse(run[i], r, start) && Authorization(run[i], r) == p
    ensures OnCourse(run[m], r, start) && Authorization(run[m], r) == p
    ensures Left(run[m].phase) == Left(run[i].phase) - OwnSteps(steps, i, m)
  {
    hide HostInv, OnCourse, Took, Authorization;
    if i < m {
      assert StepOfAttempt(steps, p, n, m - 1);
      CourseHolds(run, steps, r, start, p, n, i, m - 1);
      RunStepOnCourse(run, steps, r, start, m - 1);
    }
  }

  lemma AttemptEnds(run: seq<Host>, steps: seq<Step>, r: ReceiptId, start: Item, n: nat, m: nat)
    requires IsFilesRun(run, steps, r, start) && n < m < |run| && (IsDoneClosed(start) ==> Carries(start, r))
    requires HostInv(run[n], r, start) && OneAttempt(steps, Authorization(run[n], r), n, m)
    requires steps[n].Start? && Entitled(Authorization(run[n], r), steps[n].v, run[n].item)
    ensures OnCourse(run[m], r, start) && Authorization(run[m], r) == Authorization(run[n], r)
    ensures Left(run[m].phase) == 3 - OwnSteps(steps, n + 1, m)
  {
    hide HostInv, OnCourse, Took, Authorization;
    assert StepOfAttempt(steps, Authorization(run[n], r), n, n);
    RunStartOnCourse(run, steps, r, start, n);
    CourseHolds(run, steps, r, start, Authorization(run[n], r), n, n + 1, m);
  }

  /**
   Crash-retry convergence.  After any run whatever, with any crashes, an invocation that is entitled to the receipt and
   gets to take its three steps inside the receipt's window finishes: one claim and one apply on record, the item
   finished by this receipt, its ownership released.
   */
  lemma RetryConverges(run: seq<Host>, steps: seq<Step>, r: ReceiptId, start: Item, n: nat, m: nat)
    requires IsFilesRun(run, steps, r, start) && n < m < |run| && !IsDoneClosed(start)
    requires OneAttempt(steps, Authorization(run[n], r), n, m) && OwnSteps(steps, n + 1, m) == 3
    requires steps[n].Start? && Entitled(Authorization(run[n], r), steps[n].v, run[n].item)
    ensures run[m].phase == Finished && Applies(Chain(run[m].ledger, r), Authorization(run[n], r), run[m].item)
    ensures Landed(run[m].item, start, r) && OwnershipReleased(run[m].item)
  {
    hide HostInv, OnCourse, Applies, Landed, Authorization, Entitled, OneAttempt;
    FilesRunKeeps(run, steps, r, start, n);
    AttemptEnds(run, steps, r, start, n, m);
    Arrived(run[m], r, start);
  }

  lemma Arrived(h: Host, r: ReceiptId, start: Item)
    requires OnCourse(h, r, start) && Left(h.phase) == 0 && !IsDoneClosed(start)
    ensures h.phase == Finished && Applies(Chain(h.ledger, r), Authorization(h, r), h.item)
    ensures Landed(h.item, start, r) && OwnershipReleased(h.item)
  {
    ThreeStages(h.ledger, r);
    Links(h.ledger, r);
  }

  /** One authorization, one claim, one apply, for the item as it stands. */
  predicate Applies(c: seq<Event>, authorization: Payload, item: Item) {
    && |c| == 3 && c[0].kind == Completion(Authorized) && c[1].kind == Completion(Stage.Claimed)
    && c[2].kind == Completion(Applied)
    && c[0].payload == authorization && c[2].payload.after == Some(Print(item))
  }

  lemma ThreeStages(ledger: Ledger, r: ReceiptId)
    requires LedgerInv(ledger) && |Chain(ledger, r)| == 3
    ensures var c := Chain(ledger, r);
            c[0].kind == Completion(Authorized) && c[1].kind == Completion(Stage.Claimed)
              && c[2].kind == Completion(Applied)
  {
    var c := Chain(ledger, r);
    assert ChainBuilt(ledger, r) && Fits(ledger, r, c, 0, c[0]) && Fits(ledger, r, c, 1, c[1])
      && Fits(ledger, r, c, 2, c[2]);
  }

  /**
   No attempt may ever fail for the ledger's or the item's state: a claim or apply is refused exactly by binding or age.
   */
  lemma OnlyBindingOrAgeRefuses(h: Host, r: ReceiptId, start: Item, now: int, id: string)
    requires HostInv(h, r, start)
    ensures h.phase.Reserving? ==>
              (ReadClaim(h.ledger, ClaimOf(r, h.phase, now, id)).Ok? <==>
                 BindingRefusal(Chain(h.ledger, r)[0].payload, h.phase.workspace, h.phase.task, h.phase.v.actor,
                                now).None?)
    ensures h.phase.Acknowledging? ==>
              (ReadApply(h.ledger, ApplyOf(r, h.phase, now, id)).Ok? <==>
                 BindingRefusal(Chain(h.ledger, r)[0].payload, h.phase.workspace, h.phase.task, h.phase.v.actor,
                                now).None?)
  {
    if h.phase.Reserving? {
      ClaimOutcome(h.ledger, ClaimOf(r, h.phase, now, id), start);
    } else if h.phase.Acknowledging? {
      ApplyOutcome(h.ledger, ApplyOf(r, h.phase, now, id), start);
    }
  }

  /**
   The gate also authorizes an item that is already done and closed.  Such a receipt is never applied, on any run,
   unless the item carries that very receipt's mark from the beginning.
   */
  lemma FinishedItemNeverApplies(run: seq<Host>, steps: seq<Step>, r: ReceiptId, start: Item, n: nat)
    requires IsFilesRun(run, steps, r, start) && n < |run| && IsDoneClosed(start) && !Carries(start, r)
    ensures run[n].phase != Finished && |Chain(run[n].ledger, r)| < 3 && run[n].item == start
  {
    FilesRunKeeps(run, steps, r, start, n);
  }

  /** A late claim is refused whatever was claimed before. */
  lemma LateClaimRefused(h: Host, r: ReceiptId, start: Item, now: int, id: string)
    requires HostInv(h, r, start) && h.phase.Reserving? && WindowClosed(Authorization(h, r).expires, now)
    ensures NextHost(h, r, Claim(now, id)).phase.Failed?
  {
    hide ReadClaim, LedgerInv, Chain, Landed, Commit;
    var call := ClaimOf(r, h.phase, now, id);
    ClaimOutcome(h.ledger, call, start);
    assert BindingRefusal(Chain(h.ledger, r)[0].payload, call.workspace, call.task, call.actor, now).Some?;
  }

  /**
   The age check differs between the two ends: preflight admits a claimed receipt at any time, although every claim past
   its window is refused.
   */
  lemma LatePreflightAdmits(h: Host, r: ReceiptId, start: Item, v: Invocation, now: int)
    requires HostInv(h, r, start) && |Chain(h.ledger, r)| > 1 && Entitled(Authorization(h, r), v, h.item)
    ensures NextHost(h, r, Start(v, now)).phase.Reserving?
  {
    hide Derive, LedgerInv, Chain, EffectiveVerification, Landed, Print, WouldBeDone;
    PreflightSees(h.ledger, r, start);
    ItemIsNamed(h, r, start);
  }

  lemma ItemIsNamed(h: Host, r: ReceiptId, start: Item)
    requires HostInv(h, r, start)
    ensures h.item.id == Authorization(h, r).task
  {
    assert ChainBuilt(h.ledger, r) && Fits(h.ledger, r, Chain(h.ledger, r), 0, Chain(h.ledger, r)[0]);
  }

  /** What the files command leaves is what consume wants to find deployed. */
  lemma FinishedCanBeConsumed(h: Host, r: ReceiptId, start: Item, k: ConsumeCall)
    requires HostInv(h, r, start) && h.phase.Finished? && !IsDoneClosed(start)
    requires k.r == r && k.deployed == Some(h.item)
    ensures var p := Authorization(h, r);
            ReadConsume(h.ledger, k).Ok? <==>
              && (k.expectedWorkspace.None? || k.expectedWorkspace == p.workspace)
              && p.authorizedActor == Some(k.actor) && !WindowClosed(p.expires, k.now)
              && !DoneElsewhere(h.ledger, r, p.workspace, p.task)
  {
    var c := Chain(h.ledger, r);
    Stages(h.ledger, r);
    Links(h.ledger, r);
    assert ChainBuilt(h.ledger, r) && Fits(h.ledger, r, c, 0, c[0]);
    ConsumeOnStages(h.ledger, k, c[0].payload, c[2].payload, h.item);
  }

  lemma ConsumeOnStages(ledger: Ledger, k: ConsumeCall, p: Payload, applied: Payload, item: Item)
    requires Latest(ledger, Completion(Authorized), k.r).Some?
    requires Latest(ledger, Completion(Authorized), k.r).value.payload == p
    requires Latest(ledger, Completion(Applied), k.r).Some?
    requires Latest(ledger, Completion(Applied), k.r).value.payload == applied
    requires Latest(ledger, Completion(Consumed), k.r).None? && p.workspace.Some? && p.task.Some?
    requires k.deployed == Some(item) && item.id == p.task && IsDoneClosed(item) && OwnershipReleased(item)
    requires applied.after == Some(Print(item))
    ensures ReadConsume(ledger, k).Ok? <==>
              && (k.expectedWorkspace.None? || k.expectedWorkspace == p.workspace)
              && p.authorizedActor == Some(k.actor) && !WindowClosed(p.expires, k.now)
              && !DoneElsewhere(ledger, k.r, p.workspace, p.task)
  {
    assert p.(workspace := Some(p.workspace.value), task := Some(p.task.value)) == p;
  }

  // ---------------------------------------------------------------- one whole invocation

  /** One undisturbed invocation, step by step; a step that fails ends it. */
  function Attempt(h: Host, r: ReceiptId, v: Invocation, started: int, claimed: int, claimId: string,
                   stamp: string, applied: int, applyId: string): Host {
    var h1 := NextHost(h, r, Start(v, started));
    if !h1.phase.Reserving? then h1 else
      var h2 := NextHost(h1, r, Claim(claimed, claimId));
      if !h2.phase.Writing? then h2 else
        var h3 := NextHost(h2, r, Mark(stamp));
        if !h3.phase.Acknowledging? then h3 else NextHost(h3, r, Apply(applied, applyId))
  }

  /** A claim uses up no id but its own. */
  lemma IdStaysFree(ledger: Ledger, c: ClaimCall, id: string)
    requires !HasId(ledger, id) && id != c.newId
    ensures ReadClaim(ledger, c).Ok? && ReadClaim(ledger, c).value.Append? ==>
              !HasId(Commit(ledger, ReadClaim(ledger, c).value.write), id)
  {
    if ReadClaim(ledger, c).Ok? && ReadClaim(ledger, c).value.Append? {
      ClaimChecked(ledger, c);
      FindIdOfAppend(ledger, ClaimedEvent(c), id);
    }
  }

  /** A start that goes on has been given the receipt's own names, or none. */
  lemma StartTells(h: Host, r: ReceiptId, start: Item, v: Invocation, now: int)
    requires HostInv(h, r, start) && NextHost(h, r, Start(v, now)).phase.Reserving?
    ensures var p, q := Authorization(h, r), NextHost(h, r, Start(v, now)).phase;
            && q.v == v && q.workspace != "" && q.task != ""
            && (p.workspace == Some(q.workspace) ==> Truthy(p.workspace) && v.workspace in {"", q.workspace})
            && (p.task == Some(q.task) ==> Truthy(p.task) && v.task in {"", q.task})
  {
    hide Derive, LedgerInv, Chain, Landed, Print, WouldBeDone, PhaseOk;
    PreflightSees(h.ledger, r, start);
  }

  /** A claim that goes on was for the receipt's names and actor, inside its window. */
  lemma ClaimTells(h: Host, r: ReceiptId, start: Item, now: int, id: string)
    requires HostInv(h, r, start) && h.phase.Reserving? && NextHost(h, r, Claim(now, id)).phase.Writing?
    ensures var p, q := Authorization(h, r), h.phase;
            p.workspace == Some(q.workspace) && p.task == Some(q.task) && p.authorizedActor == Some(q.v.actor)
              && !WindowClosed(p.expires, now)
    ensures NextHost(h, r, Claim(now, id)).phase.v == h.phase.v
  {
    hide ReadClaim, LedgerInv, Chain, Landed, Commit;
    var call := ClaimOf(r, h.phase, now, id);
    ClaimOutcome(h.ledger, call, start);
    assert ClaimAnswer(Chain(h.ledger, r), call).Ok?;
  }

  lemma WriteTells(h: Host, r: ReceiptId, start: Item, stamp: string)
    requires HostInv(h, r, start) && StepOk(h, r, Mark(stamp)) && NextHost(h, r, Mark(stamp)).phase.Acknowledging?
    ensures EffectiveVerification(h.item, h.phase.v.verification) != "" && (IsDoneClosed(start) ==> Carries(start, r))
  {
    EffectiveIsSolid(h.item, h.phase.v.verification);
    WriteOutcome(h.item, start, EffectiveVerification(h.item, h.phase.v.verification), r, stamp);
  }

  lemma ApplyTells(h: Host, r: ReceiptId, start: Item, now: int, id: string)
    requires HostInv(h, r, start) && h.phase.Acknowledging? && NextHost(h, r, Apply(now, id)).phase.Finished?
    ensures !WindowClosed(Authorization(h, r).expires, now)
  {
    hide ReadApply, LedgerInv, Chain, Landed, Commit;
    ApplyOutcome(h.ledger, ApplyOf(r, h.phase, now, id), start);
  }

  /**
   From any state a crash may leave, one undisturbed invocation finishes exactly if it is entitled to the receipt, the
   window is still open when it applies, and the item was not already finished without this receipt's mark.
   */
  lemma AttemptExact(h: Host, r: ReceiptId, start: Item, v: Invocation, started: int, claimed: int, claimId: string,
                     stamp: string, applied: int, applyId: string)
    requires HostInv(h, r, start) && h.phase.Idle? && started <= claimed <= applied && stamp != ""
    requires !HasId(h.ledger, claimId) && !HasId(h.ledger, applyId) && claimId != applyId
    ensures Attempt(h, r, v, started, claimed, claimId, stamp, applied, applyId).phase.Finished? <==>
              && Entitled(Authorization(h, r), v, h.item) && !WindowClosed(Authorization(h, r).expires, applied)
              && (IsDoneClosed(start) ==> Carries(start, r))
  {
    if Entitled(Authorization(h, r), v, h.item) && !WindowClosed(Authorization(h, r).expires, applied)
      && (IsDoneClosed(start) ==> Carries(start, r)) {
      AttemptFinishes(h, r, start, v, started, claimed, claimId, stamp, applied, applyId);
    }
    if Attempt(h, r, v, started, claimed, claimId, stamp, applied, applyId).phase.Finished? {
      AttemptTells(h, r, start, v, started, claimed, claimId, stamp, applied, applyId);
    }
  }

  lemma AttemptFinishes(h: Host, r: ReceiptId, start: Item, v: Invocation, started: int, claimed: int, claimId: string,
                        stamp: string, applied: int, applyId: string)
    requires HostInv(h, r, start) && h.phase.Idle? && started <= claimed <= applied && stamp != ""
    requires !HasId(h.ledger, claimId) && !HasId(h.ledger, applyId) && claimId != applyId
    requires Entitled(Authorization(h, r), v, h.item) && !WindowClosed(Authorization(h, r).expires, applied)
    requires IsDoneClosed(start) ==> Carries(start, r)
    ensures Attempt(h, r, v, started, claimed, claimId, stamp, applied, applyId).phase.Finished?
  {
    hide ReadClaim, ReadApply, Derive, LedgerInv, Chain, Landed, Commit, HasId, Entitled;
    var h1 := NextHost(h, r, Start(v, started));
    StartsOnCourse(h, r, start, v, started);
    IdStaysFree(h1.ledger, ClaimOf(r, h1.phase, claimed, claimId), applyId);
    var h2 := NextHost(h1, r, Claim(claimed, claimId));
    StepKeepsFirst(h1, r, start, Claim(claimed, claimId));
    ClaimsOnCourse(h1, r, start, claimed, claimId);
    WritesOnCourse(h2, r, start, stamp);
    AppliesOnCourse(NextHost(h2, r, Mark(stamp)), r, start, applied, applyId);
  }

  lemma AttemptTells(h: Host, r: ReceiptId, start: Item, v: Invocation, started: int, claimed: int, claimId: string,
                     stamp: string, applied: int, applyId: string)
    requires HostInv(h, r, start) && h.phase.Idle? && stamp != "" && !HasId(h.ledger, claimId)
    requires Attempt(h, r, v, started, claimed, claimId, stamp, applied, applyId).phase.Finished?
    ensures Entitled(Authorization(h, r), v, h.item) && !WindowClosed(Authorization(h, r).expires, applied)
    ensures IsDoneClosed(start) ==> Carries(start, r)
  {
    hide ReadClaim, ReadApply, Derive, LedgerInv, Chain, Landed, Commit, HasId;
    var h1 := NextHost(h, r, Start(v, started));
    StartKeeps(h, r, start, v, started);
    StartTells(h, r, start, v, started);
    var h2 := NextHost(h1, r, Claim(claimed, claimId));
    ClaimKeeps(h1, r, start, claimed, claimId);
    StepKeepsFirst(h1, r, start, Claim(claimed, claimId));
    ClaimTells(h1, r, start, claimed, claimId);
    WriteTells(h2, r, start, stamp);
    WriteKeeps(h2, r, start, stamp);
    ApplyTells(NextHost(h2, r, Mark(stamp)), r, start, applied, applyId);
  }

  /** A freshly prepared receipt is where the files command starts from. */
  lemma PrepareStarts(ledger: Ledger, c: PrepareCall)
    requires LedgerInv(ledger) && Chain(ledger, c.r) == [] && !HasId(ledger, c.newId) && ReadPrepare(ledger, c).Ok?
    ensures c.item.Some? && ReadPrepare(ledger, c).value.Append?
    ensures var after := Commit(ledger, ReadPrepare(ledger, c).value.write);
            HostInv(Host(after, c.item.value, Idle), c.r, c.item.value) && |Chain(after, c.r)| == 1
    ensures var p := Authorization(Host(Commit(ledger, ReadPrepare(ledger, c).value.write), c.item.value, Idle), c.r);
            p.workspace == Some(c.workspace) && p.task == Some(c.task) && p.authorizedActor == Some(c.actor)
              && p.expires == At(c.expires)
  {
    var e := ReadPrepare(ledger, c).value.write.event;
    ReadDecides(ledger, Preparing(c));
    assert ChainBuilt(ledger, c.r);
    StageRecorded(ledger, c.r, Authorized);
    CommitOneKeeps(ledger, e);
    ChainOfAppend(ledger, e, c.r);
  }
}
