/**
 The completion calls as they run: an event table that is read row by row and appended to, and the coding host that
 drives it.
 */
module ReceiptStore {
  import opened Text
  import opened Receipts
  import opened ReceiptProtocol
  import opened FilesCommand

  /** What a call comes to: an event to report, a refusal, or a store failure that left nothing behind. */
  datatype Outcome = Reports(event: Event) | Refuses(error: ReceiptError) | StoreFails

  /** The outcome and ledger a decision leads to. */
  ghost predicate Follows(before: Ledger, decision: Result<Decision, ReceiptError>, after: Ledger, outcome: Outcome) {
    match decision
    case Err(e) => after == before && outcome == Refuses(e)
    case Ok(Replay(e)) => after == before && outcome == Reports(e)
    case Ok(Append(w)) => after == Commit(before, w) && !outcome.Refuses? && (outcome.StoreFails? ==> after == before)
  }

  class Store {
    var events: Ledger

    constructor ()
      ensures events == []
    {
      events := [];
    }

    method EventByKey(key: Key) returns (e: Option<Event>)
      ensures e == FindKey(events, key)
    {
      e := None;
      for n := 0 to |events|
        invariant e == FindKey(events[..n], key)
      {
        assert events[..n + 1][..n] == events[..n];
        if e.None? && events[n].key == key {
          e := Some(events[n]);
        }
      }
      assert events[..|events|] == events;
    }

    method HasEvent(id: string) returns (found: bool)
      ensures found == HasId(events, id)
    {
      found := false;
      for n := 0 to |events|
        invariant found == HasId(events[..n], id)
      {
        assert events[..n + 1][..n] == events[..n];
        found := found || events[n].id == id;
      }
      assert events[..|events|] == events;
    }

    /** The last of the matching events, oldest first. */
    method LatestEvent(kind: Kind, r: ReceiptId) returns (e: Option<Event>)
      ensures e == Latest(events, kind, r)
    {
      e := None;
      for n := 0 to |events|
        invariant e == Latest(events[..n], kind, r)
      {
        assert events[..n + 1][..n] == events[..n];
        if events[n].kind == kind && events[n].payload.receipt == Some(r) {
          e := Some(events[n]);
        }
      }
      assert events[..|events|] == events;
    }

    method DoneUnderOther(r: ReceiptId, workspace: Option<string>, task: Option<string>) returns (found: bool)
      ensures found == DoneElsewhere(events, r, workspace, task)
    {
      for n := 0 to |events|
        invariant !DoneElsewhere(events[..n], r, workspace, task)
      {
        if events[n].kind.TaskDone? && events[n].workspace == workspace && events[n].task == task
          && events[n].payload.receipt != Some(r) {
          return true;
        }
        assert events[..n + 1] == events[..n] + [events[n]];
      }
      assert events[..|events|] == events;
      return false;
    }

    method LatestCiEvent(workspace: string, task: string) returns (passed: Option<bool>)
      ensures passed == LatestCi(events, workspace, task)
    {
      passed := None;
      for n := 0 to |events|
        invariant passed == LatestCi(events[..n], workspace, task)
      {
        assert events[..n + 1][..n] == events[..n];
        if events[n].kind.Ci? && events[n].workspace == Some(workspace) && events[n].task == Some(task) {
          passed := Some(events[n].kind.passed);
        }
      }
      assert events[..|events|] == events;
    }

    /** `append_event`: None when the generated id clashes. */
    method Append(e: Event) returns (row: Option<Event>)
      modifies this
      ensures AppendEvent(old(events), e).Some? ==>
                events == AppendEvent(old(events), e).value && row == FindKey(events, e.key)
      ensures AppendEvent(old(events), e).None? ==> events == old(events) && row.None? && HasId(old(events), e.id)
    {
      row := EventByKey(e.key);
      if row.Some? {
        return;
      }
      var clash := HasEvent(e.id);
      if clash {
        return None;
      }
      FindKeyOfAppend(events, e);
      events := events + [e];
      return Some(e);
    }

    method Report(e: Event) returns (outcome: Outcome)
      modifies this
      ensures events == Commit(old(events), One(e)) && !outcome.Refuses?
      ensures outcome.StoreFails? ==> events == old(events) && HasId(old(events), e.id)
    {
      var row := Append(e);
      outcome := if row.Some? then Reports(row.value) else StoreFails;
    }

    method PrepareReceipt(c: PrepareCall) returns (outcome: Outcome)
      modifies this
      ensures Follows(old(events), ReadPrepare(old(events), c), events, outcome)
    {
      if !c.known {
        return Refuses(UnknownWorkspace);
      }
      if c.gateItem.None? || !GatePasses(c.gateItem.value) {
        return Refuses(GateNotPassed);
      }
      if c.item.None? || c.item.value.id != Some(c.task) {
        return Refuses(ItemMissing);
      }
      var ci := LatestCiEvent(c.workspace, c.task);
      if ci == Some(false) {
        return Refuses(ForgeGateFailed);
      }
      var payload := Bind(c.r, Authorized, c.workspace, c.task, c.actor).(harness := Some(Print(c.item.value)),
          expires := At(c.expires));
      outcome := Report(NewEvent(c.newId, c.r, Authorized, c.workspace, c.task, payload));
    }

    /**
     The answer carries the fingerprints the claim confirms: its own when it is fresh, the recorded ones on a replay.
     */
    method ClaimReceipt(c: ClaimCall) returns (outcome: Outcome, evidence: Option<Evidence>)
      modifies this
      ensures Follows(old(events), ReadClaim(old(events), c), events, outcome)
      ensures outcome.StoreFails? ==> HasId(old(events), c.newId)
      ensures outcome.Reports? ==> evidence == match ReadClaim(old(events), c).value
                                               case Append(_) => Some(Evidence(c.before, c.expectedAfter))
                                               case Replay(e) => Recorded(e.payload, c.expectedAfter)
    {
      evidence := None;
      var authorized := LatestEvent(Completion(Authorized), c.r);
      if authorized.None? {
        return Refuses(ReceiptError.UnknownReceipt), None;
      }
      var refusal := BindingRefusal(authorized.value.payload, c.workspace, c.task, c.actor, c.now);
      if refusal.Some? {
        return Refuses(refusal.value), None;
      }
      var consumed := LatestEvent(Completion(Consumed), c.r);
      if consumed.Some? {
        return Refuses(AlreadyConsumed), None;
      }
      var applied := LatestEvent(Completion(Applied), c.r);
      if applied.Some? {
        var p := applied.value.payload;
        if p.after != Some(c.expectedAfter) {
          return Refuses(FingerprintMismatch), None;
        }
        if Some(c.before) !in {p.before, p.after} {
          return Refuses(BeforeMismatch), None;
        }
        return Reports(applied.value), Recorded(p, c.expectedAfter);
      }
      var claimed := LatestEvent(Completion(Stage.Claimed), c.r);
      if claimed.Some? {
        var p := claimed.value.payload;
        if p.expectedAfter != Some(c.expectedAfter) {
          return Refuses(FingerprintMismatch), None;
        }
        if Some(c.before) !in {p.before, p.expectedAfter} {
          return Refuses(BeforeMismatch), None;
        }
        return Reports(claimed.value), Recorded(p, c.expectedAfter);
      }
      if Some(c.before) != authorized.value.payload.harness {
        return Refuses(BeforeMismatch), None;
      }
      outcome := Report(ClaimedEvent(c));
      evidence := Some(Evidence(c.before, c.expectedAfter));
    }

    method ApplyReceipt(c: ApplyCall) returns (outcome: Outcome)
      modifies this
      ensures Follows(old(events), ReadApply(old(events), c), events, outcome)
      ensures outcome.StoreFails? ==> HasId(old(events), c.newId)
    {
      var authorized := LatestEvent(Completion(Authorized), c.r);
      if authorized.None? {
        return Refuses(ReceiptError.UnknownReceipt);
      }
      var refusal := BindingRefusal(authorized.value.payload, c.workspace, c.task, c.actor, c.now);
      if refusal.Some? {
        return Refuses(refusal.value);
      }
      var consumed := LatestEvent(Completion(Consumed), c.r);
      if consumed.Some? {
        return Refuses(AlreadyConsumed);
      }
      var applied := LatestEvent(Completion(Applied), c.r);
      if applied.Some? {
        return if applied.value.payload.after == Some(c.after) then Reports(applied.value)
          else Refuses(FingerprintMismatch);
      }
      var claimed := LatestEvent(Completion(Stage.Claimed), c.r);
      if claimed.None? {
        return Refuses(NotClaimed);
      }
      if claimed.value.payload.expectedAfter != Some(c.after) {
        return Refuses(AfterMismatch);
      }
      outcome := Report(AppliedEvent(c, claimed.value.payload.before));
    }

    /**
     The savepoint of a consume: `task.done` first, then the consumed event that names the row found; a failure restores
     the table.
     */
    method WriteTerminal(done: Event, consumed: Event) returns (outcome: Outcome)
      modifies this
      ensures events == AppendTerminal(old(events), done, consumed)
      ensures !outcome.Refuses? && (outcome.StoreFails? ==> events == old(events))
    {
      var savepoint := events;
      var row := Append(done);
      if row.None? {
        return StoreFails;
      }
      var second := Append(consumed.(payload := consumed.payload.(doneId := Some(row.value.id))));
      if second.None? {
        events := savepoint;
        return StoreFails;
      }
      return Reports(row.value);
    }

    method ConsumeReceipt(c: ConsumeCall) returns (outcome: Outcome)
      modifies this
      ensures Follows(old(events), ReadConsume(old(events), c), events, outcome)
    {
      var authorized := LatestEvent(Completion(Authorized), c.r);
      if authorized.None? {
        return Refuses(ReceiptError.UnknownReceipt);
      }
      var p := authorized.value.payload;
      if c.expectedWorkspace.Some? && p.workspace != c.expectedWorkspace {
        return Refuses(WorkspaceMismatch);
      }
      var workspace, task := p.workspace.GetOr(""), p.task.GetOr("");
      var refusal := BindingRefusal(p.(workspace := Some(workspace), task := Some(task)), workspace, task, c.actor,
                                    c.now);
      if refusal.Some? {
        return Refuses(refusal.value);
      }
      var consumed := LatestEvent(Completion(Consumed), c.r);
      if consumed.Some? {
        var done := LatestEvent(TaskDone, c.r);
        return if done.None? then Refuses(ConsumedWithoutDone) else Reports(done.value);
      }
      var applied := LatestEvent(Completion(Applied), c.r);
      if applied.None? {
        return Refuses(NotApplied);
      }
      var other := DoneUnderOther(c.r, p.workspace, p.task);
      if other {
        return Refuses(DoneUnderOtherAuthority);
      }
      if c.deployed.None? || c.deployed.value.id != p.task {
        return Refuses(ItemMissing);
      }
      var item := c.deployed.value;
      if !IsDoneClosed(item) {
        return Refuses(DeployedNotDone);
      }
      if !OwnershipReleased(item) {
        return Refuses(OwnershipUnreleased);
      }
      if applied.value.payload.after != Some(Print(item)) {
        return Refuses(FingerprintMismatch);
      }
      var w := TerminalFor(c, p, applied.value.payload.after);
      outcome := WriteTerminal(w.done, w.consumed);
    }
  }

  // ---------------------------------------------------------------- the coding host

  class CodingHost {
    const store: Store
    var item: Item

    constructor (store: Store, item: Item)
      ensures this.store == store && this.item == item
    {
      this.store := store;
      this.item := item;
    }

    /** `mark_done_files` under a receipt: every check comes before the first field is written. */
    method MarkDone(given: string, r: ReceiptId, e: Evidence, stamp: string) returns (problem: Option<FilesError>)
      modifies this
      ensures match MarkDoneFiles(old(item), EffectiveVerification(old(item), given), r, e, stamp)
              case Ok(marked) => problem.None? && item == marked
              case Err(error) => problem == Some(error) && item == old(item)
    {
      var verification := EffectiveVerification(item, given);
      if verification == "" {
        return Some(NoVerification);
      }
      if IsDoneClosed(item) {
        if Print(item) != e.after {
          return Some(Drifted);
        }
        if item.metadata.None? || item.metadata.value.receipt != Some(r) {
          return Some(UnderOtherReceipt);
        }
        return if item.metadata.value.after != Some(e.after) then Some(Drifted) else None;
      }
      if Print(item) != e.before {
        return Some(Drifted);
      }
      var candidate := item.(status := Some("done"), verification := verification);
      candidate := candidate.(workflow := Some(Workflow(Some("closed"), Branch(candidate))));
      if candidate.lease.Some? && !Truthy(candidate.lease.value) {
        candidate := candidate.(lease := Some(Some(stamp)));
      }
      candidate := candidate.(owner := None, session := None, metadata := Some(Metadata(Some(r), Some(e.after))));
      assert candidate == FilesCommand.MarkDone(item, verification, r, e.after, stamp);
      if Print(candidate) != e.after {
        return Some(PostWriteMismatch);
      }
      item := candidate;
      return None;
    }

    /** The whole command: preflight, claim, checklist write, apply. */
    method MarkDoneFilesReceipt(r: ReceiptId, v: Invocation, started: int, claimed: int, claimId: string, stamp: string,
                                applied: int, applyId: string)
      returns (phase: Phase)
      requires !HasId(store.events, claimId) && !HasId(store.events, applyId) && claimId != applyId
      modifies this, store
      ensures Host(store.events, item, phase) ==
              Attempt(Host(old(store.events), old(item), Idle), r, v, started, claimed, claimId, stamp, applied,
                      applyId)
    {
      hide ReadClaim, ReadApply, FilesCommand.MarkDoneFiles, EffectiveVerification, AfterStart, Commit, HasId;
      phase := AfterStart(Host(store.events, item, Idle), r, v, started);
      if !phase.Reserving? {
        return;
      }
      IdStaysFree(store.events, ClaimOf(r, phase, claimed, claimId), applyId);
      phase := Reserve(phase, r, claimed, claimId);
      if !phase.Writing? {
        return;
      }
      var writing := phase;
      var problem := MarkDone(writing.v.verification, r, writing.evidence, stamp);
      if problem.Some? {
        return Failed(problem.value);
      }
      phase := Acknowledging(writing.v, writing.workspace, writing.task, writing.after);
      phase := Acknowledge(phase, r, applied, applyId);
    }

    /** The remote claim, and what the host makes of its answer. */
    method Reserve(reserving: Phase, r: ReceiptId, now: int, id: string) returns (phase: Phase)
      requires reserving.Reserving? && !HasId(store.events, id)
      modifies store
      ensures Host(store.events, item, phase) ==
              AfterClaim(Host(old(store.events), item, reserving), reserving,
                         ReadClaim(old(store.events), ClaimOf(r, reserving, now, id)))
    {
      var outcome, evidence := store.ClaimReceipt(ClaimOf(r, reserving, now, id));
      if outcome.Refuses? {
        return Failed(Refused(outcome.error));
      }
      return if evidence.None? then Failed(InvalidClaimResult)
             else Writing(reserving.v, reserving.workspace, reserving.task, reserving.after, evidence.value);
    }

    /** The apply acknowledgement. */
    method Acknowledge(written: Phase, r: ReceiptId, now: int, id: string) returns (phase: Phase)
      requires written.Acknowledging? && !HasId(store.events, id)
      modifies store
      ensures Host(store.events, item, phase) ==
              AfterApply(Host(old(store.events), item, written),
                         ReadApply(old(store.events), ApplyOf(r, written, now, id)))
    {
      var outcome := store.ApplyReceipt(ApplyOf(r, written, now, id));
      return if outcome.Refuses? then Failed(Refused(outcome.error)) else Finished;
    }
  }
}
