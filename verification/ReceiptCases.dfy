/**
 Concrete runs of the receipt protocol: one in which a task gets two terminals, one in which a claim breaks its own
 chain.
 */
module ReceiptCases {
  import opened Text
  import opened Receipts
  import opened ReceiptProtocol
  import opened ReceiptTerminal
  import opened FilesCommand

  const ITEM := Item(Some("t"), Some("open"), Some(Workflow(Some("review_approved"), None)), None, None, None,
                     "checked", None)
  const DONE := WouldBeDone(ITEM)

  function PrepareFor(r: ReceiptId, id: string): PrepareCall {
    PrepareCall(true, "w", "t", "a", Some(ITEM), Some(ITEM), r, id, 10)
  }

  function ClaimFor(r: ReceiptId, id: string): ClaimCall {
    ClaimCall(r, "w", "t", "a", Print(ITEM), Print(DONE), id, 0)
  }

  function ApplyFor(r: ReceiptId, id: string): ApplyCall {
    ApplyCall(r, "w", "t", "a", Print(DONE), id, 0)
  }

  function ConsumeFor(r: ReceiptId, doneId: string, id: string): ConsumeCall {
    ConsumeCall(r, "a", None, Some(DONE), doneId, id, 0)
  }

  /** Only receipt events so far. */
  predicate OnlyReceipts(ledger: Ledger) {
    forall i | 0 <= i < |ledger| :: ledger[i].kind.Completion?
  }

  /** The receipt stands at its n-th stage. */
  predicate StandsAt(ledger: Ledger, r: ReceiptId, n: nat) {
    var c := Chain(ledger, r);
    && |c| == n && 1 <= n && ChainFrom(c, ITEM)
    && c[0].payload.workspace == Some("w") && c[0].payload.task == Some("t")
    && c[0].payload.authorizedActor == Some("a") && c[0].payload.expires == At(10)
  }

  lemma {:induction false} NoCi(ledger: Ledger)
    requires OnlyReceipts(ledger)
    ensures LatestCi(ledger, "w", "t").None?
  {
    if ledger != [] {
      NoCi(ledger[..|ledger| - 1]);
    }
  }

  /** An appended receipt event: what it leaves as it was. */
  lemma Appended(ledger: Ledger, e: Event, r: ReceiptId)
    requires LedgerInv(ledger) && OnlyReceipts(ledger) && InChain(e, r) && e.kind.Completion?
    ensures OnlyReceipts(ledger + [e]) && OneMore(ledger, ledger + [e], r, e)
    ensures forall id :: HasId(ledger + [e], id) <==> HasId(ledger, id) || id == e.id
  {
    AppendIsOneMore(ledger, e, r);
    forall id ensures HasId(ledger + [e], id) <==> HasId(ledger, id) || id == e.id {
      FindIdOfAppend(ledger, e, id);
    }
  }

  lemma PrepareLands(ledger: Ledger, r: ReceiptId, id: string) returns (e: Event)
    requires LedgerInv(ledger) && OnlyReceipts(ledger) && Chain(ledger, r) == [] && !HasId(ledger, id)
    ensures ReadPrepare(ledger, PrepareFor(r, id)) == Ok(Append(One(e))) && Commit(ledger, One(e)) == ledger + [e]
    ensures e.id == id
    ensures LedgerInv(ledger + [e]) && InChain(e, r) && e.kind.Completion? && StandsAt(ledger + [e], r, 1)
  {
    NoCi(ledger);
    var c := PrepareFor(r, id);
    assert ReadPrepare(ledger, c).Ok?;
    e := ReadPrepare(ledger, c).value.write.event;
    PrepareStarts(ledger, c);
    ReadDecides(ledger, Preparing(c));
    CommitOneKeeps(ledger, e);
  }

  lemma ClaimLandsToo(ledger: Ledger, r: ReceiptId, id: string) returns (e: Event)
    requires LedgerInv(ledger) && StandsAt(ledger, r, 1) && !HasId(ledger, id)
    ensures ReadClaim(ledger, ClaimFor(r, id)) == Ok(Append(One(e))) && Commit(ledger, One(e)) == ledger + [e]
    ensures e.id == id
    ensures LedgerInv(ledger + [e]) && InChain(e, r) && e.kind.Completion? && StandsAt(ledger + [e], r, 2)
  {
    var c := ClaimFor(r, id);
    e := ClaimedEvent(c);
    ClaimOutcome(ledger, c, ITEM);
    ClaimLands(ledger, c);
    ReadClaimDecides(ledger, c);
    CommitOneKeeps(ledger, e);
  }

  lemma ApplyLandsToo(ledger: Ledger, r: ReceiptId, id: string) returns (e: Event)
    requires LedgerInv(ledger) && StandsAt(ledger, r, 2) && !HasId(ledger, id)
    ensures ReadApply(ledger, ApplyFor(r, id)) == Ok(Append(One(e))) && Commit(ledger, One(e)) == ledger + [e]
    ensures e.id == id
    ensures LedgerInv(ledger + [e]) && InChain(e, r) && e.kind.Completion? && StandsAt(ledger + [e], r, 3)
  {
    var a := ApplyFor(r, id);
    ApplyOutcome(ledger, a, ITEM);
    ApplyLands(ledger, a);
    e := AppliedEvent(a, Chain(ledger, r)[1].payload.before);
    ReadApplyDecides(ledger, a);
    CommitOneKeeps(ledger, e);
  }

  lemma ConsumeReads(ledger: Ledger, r: ReceiptId, doneId: string, id: string)
    requires LedgerInv(ledger) && OnlyReceipts(ledger) && StandsAt(ledger, r, 3)
    ensures ReadConsume(ledger, ConsumeFor(r, doneId, id)).Ok?
  {
    var c := Chain(ledger, r);
    Stages(ledger, r);
    Links(ledger, r);
    ConsumeOnStages(ledger, ConsumeFor(r, doneId, id), c[0].payload, c[2].payload, DONE);
  }

  // ---------------------------------------------------------------- the run

  function Last(run: seq<System>): System {
    if run == [] then System([], []) else run[|run| - 1]
  }

  lemma Extend(run: seq<System>, moves: seq<Move>, m: Move) returns (run': seq<System>, moves': seq<Move>)
    requires ReceiptProtocol.IsRun(run, moves) && MoveOk(Last(run), m)
    ensures ReceiptProtocol.IsRun(run', moves') && Last(run') == ReceiptProtocol.Next(Last(run), m)
  {
    run', moves' := run + [ReceiptProtocol.Next(Last(run), m)], moves + [m];
    forall i | 0 <= i < |moves'| ensures Moved(run', moves', i) {
      if i < |moves| {
        assert Moved(run, moves, i);
      }
    }
  }

  /** A read that decides to append leaves the write pending. */
  lemma ReadPends(run: seq<System>, moves: seq<Move>, call: Call, w: Write)
    returns (run': seq<System>, moves': seq<Move>)
    requires ReceiptProtocol.IsRun(run, moves) && (call.Consuming? ==> call.k.doneId != "")
    requires Read(Last(run).ledger, call) == Ok(Append(w))
    ensures ReceiptProtocol.IsRun(run', moves')
    ensures Last(run').ledger == Last(run).ledger && Last(run').pending == Last(run).pending + [w]
  {
    hide ReceiptProtocol.IsRun, Read;
    run', moves' := Extend(run, moves, Reads(call));
  }

  lemma PendingCommits(run: seq<System>, moves: seq<Move>, i: nat) returns (run': seq<System>, moves': seq<Move>)
    requires ReceiptProtocol.IsRun(run, moves) && i < |Last(run).pending|
    ensures ReceiptProtocol.IsRun(run', moves')
    ensures Last(run').ledger == Commit(Last(run).ledger, Last(run).pending[i])
    ensures Last(run').pending == Last(run).pending
  {
    hide ReceiptProtocol.IsRun, Commit;
    run', moves' := Extend(run, moves, Commits(i));
  }

  /** A read and its append, one after the other. */
  lemma ReadThenCommit(run: seq<System>, moves: seq<Move>, call: Call, e: Event)
    returns (run': seq<System>, moves': seq<Move>)
    requires ReceiptProtocol.IsRun(run, moves) && !call.Consuming? && Read(Last(run).ledger, call) == Ok(Append(One(e)))
    ensures ReceiptProtocol.IsRun(run', moves') && Last(run').ledger == Commit(Last(run).ledger, One(e))
  {
    hide ReceiptProtocol.IsRun, Read, Commit;
    run', moves' := ReadPends(run, moves, call, One(e));
    run', moves' := PendingCommits(run', moves', |Last(run).pending|);
  }

  predicate AtStage(ledger: Ledger, r: ReceiptId, n: nat) {
    if n == 0 then Chain(ledger, r) == [] else StandsAt(ledger, r, n)
  }

  /** Two receipts at their stages, and nothing else but receipt events under these ids. */
  ghost predicate Pair(ledger: Ledger, r: ReceiptId, n: nat, q: ReceiptId, m: nat, ids: set<string>) {
    && LedgerInv(ledger) && OnlyReceipts(ledger) && AtStage(ledger, r, n) && AtStage(ledger, q, m)
    && forall id | HasId(ledger, id) :: id in ids
  }

  lemma StageLands(ledger: Ledger, r: ReceiptId, n: nat, id: string) returns (call: Call, e: Event)
    requires LedgerInv(ledger) && OnlyReceipts(ledger) && AtStage(ledger, r, n) && n < 3 && !HasId(ledger, id)
    ensures !call.Consuming? && Read(ledger, call) == Ok(Append(One(e))) && Commit(ledger, One(e)) == ledger + [e]
    ensures e.id == id
    ensures LedgerInv(ledger + [e]) && InChain(e, r) && e.kind.Completion? && AtStage(ledger + [e], r, n + 1)
  {
    hide LedgerInv, StandsAt, OnlyReceipts, Commit, ReadPrepare, ReadClaim, ReadApply, InChain, HasId, Chain;
    if n == 0 {
      e := PrepareLands(ledger, r, id);
      call := Preparing(PrepareFor(r, id));
    } else if n == 1 {
      e := ClaimLandsToo(ledger, r, id);
      call := Claiming(ClaimFor(r, id));
    } else {
      e := ApplyLandsToo(ledger, r, id);
      call := Applying(ApplyFor(r, id));
    }
  }

  lemma PairGrows(ledger: Ledger, r: ReceiptId, n: nat, q: ReceiptId, m: nat, ids: set<string>, e: Event)
    requires Pair(ledger, r, n, q, m, ids) && r != q && InChain(e, r) && e.kind.Completion?
    requires LedgerInv(ledger + [e]) && AtStage(ledger + [e], r, n + 1)
    ensures Pair(ledger + [e], r, n + 1, q, m, ids + {e.id})
  {
    hide LedgerInv, OnlyReceipts, InChain, HasId, Chain;
    Appended(ledger, e, r);
    assert Chain(ledger + [e], q) == Chain(ledger, q);
  }

  lemma Advance(run: seq<System>, moves: seq<Move>, r: ReceiptId, n: nat, q: ReceiptId, m: nat, ids: set<string>,
                id: string)
    returns (run': seq<System>, moves': seq<Move>)
    requires ReceiptProtocol.IsRun(run, moves) && Pair(Last(run).ledger, r, n, q, m, ids) && r != q && n < 3
    requires id !in ids
    ensures ReceiptProtocol.IsRun(run', moves') && Pair(Last(run').ledger, r, n + 1, q, m, ids + {id})
  {
    hide ReceiptProtocol.IsRun, Read, Commit, LedgerInv, OnlyReceipts, AtStage, InChain, HasId;
    var call, e := StageLands(Last(run).ledger, r, n, id);
    run', moves' := ReadThenCommit(run, moves, call, e);
    PairGrows(Last(run).ledger, r, n, q, m, ids, e);
  }

  lemma Nothing(run: seq<System>)
    requires run == [System([], [])]
    ensures ReceiptProtocol.IsRun(run, []) && Pair(Last(run).ledger, "p", 0, "q", 0, {})
  {
    RunKeeps(run, [], 0);
  }

  /** Two receipts of one task, both applied. */
  lemma BothApplied() returns (run: seq<System>, moves: seq<Move>)
    ensures ReceiptProtocol.IsRun(run, moves) && Pair(Last(run).ledger, "p", 3, "q", 3, {"1", "2", "3", "4", "5", "6"})
  {
    hide ReceiptProtocol.IsRun, LedgerInv, OnlyReceipts, AtStage, HasId;
    run, moves := [System([], [])], [];
    Nothing(run);
    run, moves := Advance(run, moves, "p", 0, "q", 0, {}, "1");
    run, moves := Advance(run, moves, "p", 1, "q", 0, {} + {"1"}, "2");
    run, moves := Advance(run, moves, "p", 2, "q", 0, {} + {"1"} + {"2"}, "3");
    run, moves := Advance(run, moves, "q", 0, "p", 3, {"1", "2", "3"}, "4");
    run, moves := Advance(run, moves, "q", 1, "p", 3, {"1", "2", "3", "4"}, "5");
    run, moves := Advance(run, moves, "q", 2, "p", 3, {"1", "2", "3", "4", "5"}, "6");
  }

  lemma SubjectsAgree(ledger: Ledger)
    requires StandsAt(ledger, "p", 3) && StandsAt(ledger, "q", 3)
    ensures Subject(ledger, "p") == Subject(ledger, "q") && |Chain(ledger, "p")| == 3 && |Chain(ledger, "q")| == 3
  {
  }

  /** From there both receipts can be read for consumption, and both writes, once pending, land. */
  lemma BothConsume(ledger: Ledger, j: ConsumeCall, k: ConsumeCall)
    requires Pair(ledger, "p", 3, "q", 3, {"1", "2", "3", "4", "5", "6"}) && j == ConsumeFor("p", "7", "8")
    requires k == ConsumeFor("q", "9", "10")
    ensures ReadConsume(ledger, j).Ok? && ReadConsume(ledger, k).Ok? && ReadConsume(ledger, j).value.Append?
    ensures ReadConsume(ledger, k).value.Append?
    ensures !OneTerminal(Commit(Commit(ledger, ReadConsume(ledger, j).value.write), ReadConsume(ledger, k).value.write))
  {
    hide LedgerInv, OnlyReceipts, StandsAt, HasId, ReadConsume, OneTerminal, Commit, Chain;
    ConsumeReads(ledger, "p", "7", "8");
    ConsumeReads(ledger, "q", "9", "10");
    SubjectsAgree(ledger);
    InterleavedConsumesBothLand(ledger, j, k);
  }

  /**
   The run goes on: both receipts are read for consumption before either is appended, and the task ends with two
   terminals.
   */
  lemma TwoTerminalsReachable() returns (run: seq<System>, moves: seq<Move>)
    ensures ReceiptProtocol.IsRun(run, moves) && !OneTerminal(Last(run).ledger)
  {
    hide ReceiptProtocol.IsRun, OneTerminal, Pair, ReadConsume, Commit, HasId;
    run, moves := BothApplied();
    var s, j, k := Last(run), ConsumeFor("p", "7", "8"), ConsumeFor("q", "9", "10");
    BothConsume(s.ledger, j, k);
    run, moves := ReadPends(run, moves, Consuming(j), ReadConsume(s.ledger, j).value.write);
    run, moves := ReadPends(run, moves, Consuming(k), ReadConsume(s.ledger, k).value.write);
    run, moves := PendingCommits(run, moves, |s.pending|);
    run, moves := PendingCommits(run, moves, |s.pending| + 1);
  }

  // ---------------------------------------------------------------- a loose claim

  /** A claim may announce a text that is no digest. */
  function LooseClaim(r: ReceiptId, id: string): ClaimCall {
    ClaimFor(r, id).(expectedAfter := Words("x"))
  }

  lemma LooseClaimLands(ledger: Ledger, r: ReceiptId, id: string)
    requires LedgerInv(ledger) && StandsAt(ledger, r, 1) && !HasId(ledger, id)
    ensures var e := ClaimedEvent(LooseClaim(r, id));
            ReadClaim(ledger, LooseClaim(r, id)) == Ok(Append(One(e))) && Commit(ledger, One(e)) == ledger + [e]
            && LedgerInv(ledger + [e]) && Derive(ledger + [e], r) == Broken(Conflict)
  {
    var c := LooseClaim(r, id);
    var e := ClaimedEvent(c);
    Stages(ledger, r);
    ClaimFresh(ledger, c, Chain(ledger, r)[0].payload);
    ClaimLands(ledger, c);
    ReadClaimDecides(ledger, c);
    CommitOneKeeps(ledger, e);
    LooseChainBreaks(ledger + [e], r, e);
  }

  lemma LooseChainBreaks(ledger: Ledger, r: ReceiptId, e: Event)
    requires LedgerInv(ledger) && |Chain(ledger, r)| == 2 && Chain(ledger, r)[1] == e
    requires e.payload.expectedAfter == Some(Words("x"))
    ensures Derive(ledger, r) == Broken(Conflict)
  {
    var c := Chain(ledger, r);
    assert ChainBuilt(ledger, r) && Fits(ledger, r, c, 0, c[0]) && Fits(ledger, r, c, 1, c[1]);
    assert |"x"| == 1;
    SecondTurnBreaks(ledger, r, c);
  }

  lemma SecondTurnBreaks(ledger: Ledger, r: ReceiptId, c: seq<Event>)
    requires |c| == 2 && Fits(ledger, r, c, 0, c[0]) && Fits(ledger, r, c, 1, c[1])
    requires c[1].payload.expectedAfter == Some(Words("x"))
    ensures Scan(ledger, r, c, 2) == Err(Conflict)
  {
    assert Scan(ledger, r, c, 0) == Ok(START);
    assert Scan(ledger, r, c, 1).Ok?;
  }

  /** An accepted claim after which the derivation reports the receipt's chain as broken. */
  lemma LooseClaimReachable() returns (run: seq<System>, moves: seq<Move>)
    ensures ReceiptProtocol.IsRun(run, moves) && Derive(Last(run).ledger, "p") == Broken(Conflict)
  {
    hide ReceiptProtocol.IsRun, LedgerInv, OnlyReceipts, HasId, Derive, Commit, ReadClaim;
    run, moves := [System([], [])], [];
    Nothing(run);
    run, moves := Advance(run, moves, "p", 0, "q", 0, {}, "1");
    LooseClaimLands(Last(run).ledger, "p", "2");
    run, moves := ReadThenCommit(run, moves, Claiming(LooseClaim("p", "2")), ClaimedEvent(LooseClaim("p", "2")));
  }
}
