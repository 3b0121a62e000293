/** The terminal of a task: what a consumed receipt proves, and when a task can be consumed only once. */
module ReceiptTerminal {
  import opened Text
  import opened Receipts
  import opened ReceiptProtocol

  predicate IsConsumed(ledger: Ledger, r: ReceiptId) {
    HasKey(ledger, ReceiptKey(r, Consumed))
  }

  /**
   In every reachable ledger a consumed receipt comes with exactly its own `task.done`, for the same workspace and task,
   and both carry the fingerprint its claim announced: the digest of that task's item, done and closed.
   */
  lemma ConsumedMeansDone(run: seq<System>, moves: seq<Move>, n: nat, r: ReceiptId)
    requires IsRun(run, moves) && n < |run|
    ensures IsConsumed(run[n].ledger, r) <==> HasKey(run[n].ledger, DoneKey(r))
    ensures IsConsumed(run[n].ledger, r) ==> TerminalEvidence(run[n].ledger, r)
  {
    RunKeeps(run, moves, n);
    EvidenceOf(run[n].ledger, r);
  }

  ghost predicate TerminalEvidence(ledger: Ledger, r: ReceiptId) {
    var claimed, consumed := Latest(ledger, Completion(Claimed), r), Latest(ledger, Completion(Consumed), r);
    && claimed.Some? && consumed.Some? && consumed.value.payload.doneId.Some?
    && claimed.value.payload.expectedAfter.Some?
    && DoneClosedDigest(claimed.value.payload.expectedAfter.value, consumed.value.payload.task)
    && TerminalMatches(FindId(ledger, consumed.value.payload.doneId.value), r, consumed.value.payload.workspace,
                       consumed.value.payload.task, claimed.value.payload.expectedAfter)
  }

  lemma EvidenceOf(ledger: Ledger, r: ReceiptId)
    requires LedgerInv(ledger)
    ensures IsConsumed(ledger, r) <==> |Chain(ledger, r)| == 4
    ensures IsConsumed(ledger, r) <==> HasKey(ledger, DoneKey(r))
    ensures IsConsumed(ledger, r) ==> TerminalEvidence(ledger, r)
  {
    assert ChainBuilt(ledger, r) && DoneMarked(ledger, r);
    StageRecorded(ledger, r, Consumed);
    StageRecorded(ledger, r, Claimed);
    var c := Chain(ledger, r);
    if |c| == 4 {
      assert Fits(ledger, r, c, 3, c[3]) && Fits(ledger, r, c, 2, c[2]);
    }
  }

  // ---------------------------------------------------------------- calls that run whole

  /** A whole call, its reads and its append in one transaction, or an append by another part of the program. */
  datatype WholeStep = Whole(call: Call) | Aside(event: Event)

  predicate WholeStepOk(m: WholeStep) {
    match m
    case Whole(call) => MoveOk(System([], []), Reads(call))
    case Aside(e) => MoveOk(System([], []), Elsewhere(e))
  }

  function Run(ledger: Ledger, call: Call): Ledger {
    match Read(ledger, call)
    case Ok(Append(w)) => Commit(ledger, w)
    case _ => ledger
  }

  function AfterStep(ledger: Ledger, m: WholeStep): Ledger {
    match m
    case Whole(call) => Run(ledger, call)
    case Aside(e) => AppendEvent(ledger, e).GetOr(ledger)
  }

  ghost predicate IsWholeRun(run: seq<Ledger>, steps: seq<WholeStep>) {
    && |run| == |steps| + 1 && run[0] == []
    && forall i | 0 <= i < |steps| :: Stepped(run, steps, i)
  }

  ghost predicate Stepped(run: seq<Ledger>, steps: seq<WholeStep>, i: nat)
    requires |run| == |steps| + 1 && i < |steps|
  {
    WholeStepOk(steps[i]) && run[i + 1] == AfterStep(run[i], steps[i])
  }

  /** The workspace and task of a receipt. */
  function Subject(ledger: Ledger, r: ReceiptId): (Option<string>, Option<string>)
    requires Chain(ledger, r) != []
  {
    (Chain(ledger, r)[0].payload.workspace, Chain(ledger, r)[0].payload.task)
  }

  ghost predicate OneTerminal(ledger: Ledger) {
    forall r, q :: r != q && |Chain(ledger, r)| == 4 && |Chain(ledger, q)| == 4 ==>
      Subject(ledger, r) != Subject(ledger, q)
  }

  /** A consumed receipt's `task.done` stands in the ledger under the receipt's subject. */
  lemma DoneOf(ledger: Ledger, r: ReceiptId) returns (i: nat)
    requires LedgerInv(ledger) && |Chain(ledger, r)| == 4
    ensures i < |ledger| && ledger[i].kind.TaskDone? && ledger[i].payload.receipt == Some(r)
    ensures (ledger[i].workspace, ledger[i].task) == Subject(ledger, r)
  {
    var c := Chain(ledger, r);
    assert ChainBuilt(ledger, r) && Fits(ledger, r, c, 3, c[3]);
    var done := FindId(ledger, c[3].payload.doneId.value).value;
    i :| 0 <= i < |ledger| && ledger[i] == done;
  }

  /** `after` has the chains of `before`, with one event more on the chain of `r`. */
  ghost predicate OneMore(before: Ledger, after: Ledger, r: ReceiptId, e: Event) {
    forall q :: Chain(after, q) == Chain(before, q) + if q == r then [e] else []
  }

  /** One more event can break the claim only by completing a chain whose subject is already terminal. */
  lemma OneMoreKeepsOne(before: Ledger, after: Ledger, r: ReceiptId, e: Event)
    requires OneTerminal(before) && OneMore(before, after, r, e)
    requires |Chain(before, r)| == 3 ==> forall q :: q != r && |Chain(before, q)| == 4 ==>
               Subject(before, q) != Subject(before, r)
    ensures OneTerminal(after)
  {
    forall p, q | p != q && |Chain(after, p)| == 4 && |Chain(after, q)| == 4
      ensures Subject(after, p) != Subject(after, q)
    {
      assert |Chain(before, p)| >= 3 && |Chain(before, q)| >= 3;
      assert Subject(after, p) == Subject(before, p) && Subject(after, q) == Subject(before, q);
    }
  }

  lemma AppendIsOneMore(ledger: Ledger, e: Event, r: ReceiptId)
    requires InChain(e, r)
    ensures OneMore(ledger, ledger + [e], r, e)
  {
    forall q ensures Chain(ledger + [e], q) == Chain(ledger, q) + if q == r then [e] else [] {
      ChainOfAppend(ledger, e, q);
    }
  }

  lemma PairIsOneMore(ledger: Ledger, done: Event, e: Event, r: ReceiptId)
    requires done.kind.TaskDone? && InChain(e, r)
    ensures OneMore(ledger, ledger + [done] + [e], r, e)
  {
    hide Chain;
    forall q ensures Chain(ledger + [done] + [e], q) == Chain(ledger, q) + if q == r then [e] else [] {
      ChainOfAppend(ledger, done, q);
      ChainOfAppend(ledger + [done], e, q);
    }
  }

  /** A consume that appends completes its receipt's chain, and finds no other authority's `task.done`. */
  lemma ConsumeCompletes(ledger: Ledger, k: ConsumeCall) returns (e: Event)
    requires LedgerInv(ledger) && k.doneId != "" && Run(ledger, Consuming(k)) != ledger
    ensures |Chain(ledger, k.r)| == 3 && OneMore(ledger, Run(ledger, Consuming(k)), k.r, e)
    ensures !DoneElsewhere(ledger, k.r, Subject(ledger, k.r).0, Subject(ledger, k.r).1)
  {
    ConsumeChecked(ledger, k);
    ReadConsumeDecides(ledger, k);
    var w := ReadConsume(ledger, k).value.write;
    CommitTerminalIsPair(ledger, w.done, w.consumed);
    assert ChainBuilt(ledger, k.r);
    StageRecorded(ledger, k.r, Authorized);
    e := Named(w.done, w.consumed);
    PairIsOneMore(ledger, w.done, e, k.r);
  }

  lemma ConsumeKeepsOne(ledger: Ledger, k: ConsumeCall)
    requires LedgerInv(ledger) && OneTerminal(ledger) && k.doneId != ""
    ensures OneTerminal(Run(ledger, Consuming(k)))
  {
    if Run(ledger, Consuming(k)) != ledger {
      var e := ConsumeCompletes(ledger, k);
      forall q | q != k.r && |Chain(ledger, q)| == 4
        ensures Subject(ledger, q) != Subject(ledger, k.r)
      {
        var i := DoneOf(ledger, q);
      }
      OneMoreKeepsOne(ledger, Run(ledger, Consuming(k)), k.r, e);
    }
  }

  lemma WriteKeepsOne(ledger: Ledger, e: Event)
    requires LedgerInv(ledger) && OneTerminal(ledger) && WriteOk(ledger, One(e))
    ensures OneTerminal(Commit(ledger, One(e)))
  {
    CommitOneIs(ledger, e);
    if Commit(ledger, One(e)) != ledger {
      AppendIsOneMore(ledger, e, e.key.receipt);
      OneMoreKeepsOne(ledger, ledger + [e], e.key.receipt, e);
    }
  }

  lemma OtherCallKeepsOne(ledger: Ledger, call: Call)
    requires LedgerInv(ledger) && OneTerminal(ledger) && !call.Consuming?
    ensures OneTerminal(Run(ledger, call))
  {
    if Read(ledger, call).Ok? && Read(ledger, call).value.Append? {
      ReadDecides(ledger, call);
      WriteKeepsOne(ledger, Read(ledger, call).value.write.event);
    }
  }

  lemma WholeKeepsInv(ledger: Ledger, call: Call)
    requires LedgerInv(ledger) && (call.Consuming? ==> call.k.doneId != "")
    ensures LedgerInv(Run(ledger, call))
  {
    if Read(ledger, call).Ok? && Read(ledger, call).value.Append? {
      ReadDecides(ledger, call);
      CommitKeeps(ledger, Read(ledger, call).value.write);
    }
  }

  lemma AsideKeepsOne(ledger: Ledger, e: Event)
    requires LedgerInv(ledger) && OneTerminal(ledger) && WholeStepOk(Aside(e))
    ensures LedgerInv(AfterStep(ledger, Aside(e))) && OneTerminal(AfterStep(ledger, Aside(e)))
  {
    AppendElsewhereKeeps(ledger, e);
    AppendOutside(ledger, e);
    if AfterStep(ledger, Aside(e)) != ledger {
      forall p, q | p != q && |Chain(ledger + [e], p)| == 4 && |Chain(ledger + [e], q)| == 4
        ensures Subject(ledger + [e], p) != Subject(ledger + [e], q)
      {
        assert Subject(ledger, p) != Subject(ledger, q);
      }
    }
  }

  lemma StepKeepsOne(ledger: Ledger, m: WholeStep)
    requires LedgerInv(ledger) && OneTerminal(ledger) && WholeStepOk(m)
    ensures LedgerInv(AfterStep(ledger, m)) && OneTerminal(AfterStep(ledger, m))
  {
    match m
    case Whole(call) =>
      WholeKeepsInv(ledger, call);
      if call.Consuming? { ConsumeKeepsOne(ledger, call.k); } else { OtherCallKeepsOne(ledger, call); }
    case Aside(e) => AsideKeepsOne(ledger, e);
  }

  /** With every call in one transaction, at most one receipt is ever consumed for a workspace and task. */
  lemma {:induction false} OneTerminalPerTask(run: seq<Ledger>, steps: seq<WholeStep>, n: nat)
    requires IsWholeRun(run, steps) && n < |run|
    ensures LedgerInv(run[n]) && OneTerminal(run[n])
  {
    if n > 0 {
      OneTerminalPerTask(run, steps, n - 1);
      assert Stepped(run, steps, n - 1);
      StepKeepsOne(run[n - 1], steps[n - 1]);
    }
  }

  // ---------------------------------------------------------------- calls that interleave

  /**
   The single transaction is needed: two consumes of different receipts of one task that both read before either appends
   both land, so the task gets two terminals.
   */
  lemma InterleavedConsumesBothLand(ledger: Ledger, j: ConsumeCall, k: ConsumeCall)
    requires LedgerInv(ledger) && j.r != k.r && j.doneId != "" && k.doneId != ""
    requires |Chain(ledger, j.r)| == 3 && |Chain(ledger, k.r)| == 3 && Subject(ledger, j.r) == Subject(ledger, k.r)
    requires ReadConsume(ledger, j).Ok? && ReadConsume(ledger, k).Ok?
    requires !HasId(ledger, j.doneId) && !HasId(ledger, j.newId) && !HasId(ledger, k.doneId) && !HasId(ledger, k.newId)
    requires j.doneId != j.newId && k.doneId != k.newId && j.doneId !in {k.doneId, k.newId}
    requires j.newId !in {k.doneId, k.newId}
    ensures ReadConsume(ledger, j).value.Append? && ReadConsume(ledger, k).value.Append?
    ensures !OneTerminal(Commit(Commit(ledger, ReadConsume(ledger, j).value.write), ReadConsume(ledger, k).value.write))
  {
    UnconsumedAppends(ledger, j);
    UnconsumedAppends(ledger, k);
    TwoLand(ledger, ReadConsume(ledger, j).value.write, ReadConsume(ledger, k).value.write);
  }

  lemma UnconsumedAppends(ledger: Ledger, k: ConsumeCall)
    requires LedgerInv(ledger) && k.doneId != "" && |Chain(ledger, k.r)| == 3 && ReadConsume(ledger, k).Ok?
    ensures ReadConsume(ledger, k).value.Append? && WriteOk(ledger, ReadConsume(ledger, k).value.write)
    ensures var w := ReadConsume(ledger, k).value.write;
            w.Terminal? && w.done.id == k.doneId && w.consumed.id == k.newId
              && w.consumed.key == ReceiptKey(k.r, Consumed)
  {
    assert ChainBuilt(ledger, k.r);
    StageRecorded(ledger, k.r, Consumed);
    UnconsumedReads(ledger, k);
    hide ReadConsume, LedgerInv, Chain;
    ReadConsumeDecides(ledger, k);
    ConsumeChecked(ledger, k);
  }

  lemma UnconsumedReads(ledger: Ledger, k: ConsumeCall)
    requires ReadConsume(ledger, k).Ok? && Latest(ledger, Completion(Consumed), k.r).None?
    ensures ReadConsume(ledger, k).value.Append?
  {
  }

  lemma TwoLand(ledger: Ledger, v: Write, w: Write)
    requires LedgerInv(ledger) && v.Terminal? && w.Terminal? && WriteOk(ledger, v) && WriteOk(ledger, w)
    requires v.consumed.key.receipt != w.consumed.key.receipt
    requires |Chain(ledger, v.consumed.key.receipt)| == 3 && |Chain(ledger, w.consumed.key.receipt)| == 3
    requires Subject(ledger, v.consumed.key.receipt) == Subject(ledger, w.consumed.key.receipt)
    requires !HasId(ledger, v.done.id) && !HasId(ledger, v.consumed.id) && !HasId(ledger, w.done.id)
    requires !HasId(ledger, w.consumed.id)
    requires v.done.id != v.consumed.id && w.done.id != w.consumed.id
    requires v.done.id !in {w.done.id, w.consumed.id} && v.consumed.id !in {w.done.id, w.consumed.id}
    ensures !OneTerminal(Commit(Commit(ledger, v), w))
  {
    var p, q := v.consumed.key.receipt, w.consumed.key.receipt;
    var mid := FirstLands(ledger, v);
    assert mid == Commit(ledger, v);
    CommitKeepsWrites(ledger, v, w);
    IdStaysUnused(ledger, v, w.done.id);
    IdStaysUnused(ledger, v, w.consumed.id);
    assert Chain(mid, q) == Chain(ledger, q);
    var last := FirstLands(mid, w);
    TwoComplete(ledger, mid, last, p, q, Named(v.done, v.consumed), Named(w.done, w.consumed));
  }

  lemma FirstLands(ledger: Ledger, w: Write) returns (after: Ledger)
    requires LedgerInv(ledger) && w.Terminal? && WriteOk(ledger, w) && |Chain(ledger, w.consumed.key.receipt)| == 3
    requires !HasId(ledger, w.done.id) && !HasId(ledger, w.consumed.id) && w.done.id != w.consumed.id
    ensures after == Commit(ledger, w) && LedgerInv(after)
    ensures OneMore(ledger, after, w.consumed.key.receipt, Named(w.done, w.consumed))
  {
    after := Commit(ledger, w);
    LandsFresh(ledger, w.done, w.consumed);
    PairIsOneMore(ledger, w.done, Named(w.done, w.consumed), w.consumed.key.receipt);
    CommitKeeps(ledger, w);
  }

  lemma IdStaysUnused(ledger: Ledger, w: Write, id: string)
    requires LedgerInv(ledger) && w.Terminal? && WriteOk(ledger, w)
    requires !HasId(ledger, id) && id != w.done.id && id != w.consumed.id
    ensures !HasId(Commit(ledger, w), id)
  {
    CommitTerminalIsPair(ledger, w.done, w.consumed);
    FindIdOfAppend(ledger, w.done, id);
    FindIdOfAppend(ledger + [w.done], Named(w.done, w.consumed), id);
  }

  lemma TwoComplete(ledger: Ledger, mid: Ledger, last: Ledger, p: ReceiptId, q: ReceiptId, e: Event, f: Event)
    requires OneMore(ledger, mid, p, e) && OneMore(mid, last, q, f) && p != q
    requires |Chain(ledger, p)| == 3 && |Chain(ledger, q)| == 3 && Subject(ledger, p) == Subject(ledger, q)
    ensures !OneTerminal(last)
  {
    assert Chain(last, p) == Chain(mid, p) && Chain(mid, q) == Chain(ledger, q);
    assert Subject(last, p) == Subject(ledger, p) && Subject(last, q) == Subject(ledger, q);
  }

  /** A pending consume of an unconsumed receipt lands if its generated ids are new. */
  lemma LandsFresh(ledger: Ledger, done: Event, consumed: Event)
    requires LedgerInv(ledger) && WriteOk(ledger, Terminal(done, consumed))
    requires |Chain(ledger, consumed.key.receipt)| == 3
    requires !HasId(ledger, done.id) && !HasId(ledger, consumed.id) && done.id != consumed.id
    ensures Commit(ledger, Terminal(done, consumed)) == ledger + [done] + [Named(done, consumed)]
  {
    hide Chain, Built, AllKeyed;
    var r := consumed.key.receipt;
    assert ChainBuilt(ledger, r) && DoneMarked(ledger, r);
    StageRecorded(ledger, r, Consumed);
    HasKeyOfAppend(ledger, done, consumed.key);
    FindKeyOfAppend(ledger, done);
    FindIdOfAppend(ledger, done, consumed.id);
  }

  // ---------------------------------------------------------------- what interleaved calls would have to guard

  predicate SameSubject(ledger: Ledger, q: ReceiptId, r: ReceiptId) {
    Chain(ledger, q) != [] && Chain(ledger, r) != [] && Subject(ledger, q) == Subject(ledger, r)
  }

  /** No other receipt of the same subject was consumed between the two ledgers. */
  ghost predicate NoneSince(before: Ledger, now: Ledger, r: ReceiptId) {
    forall q :: q != r && |Chain(now, q)| == 4 && SameSubject(now, q, r) ==> |Chain(before, q)| == 4
  }

  lemma {:induction false} ChainGrows(before: Ledger, now: Ledger, r: ReceiptId)
    requires before <= now
    ensures Chain(before, r) <= Chain(now, r)
  {
    if |before| == |now| {
      assert before == now;
    } else {
      var init, last := now[..|now| - 1], now[|now| - 1];
      assert before <= init && now == init + [last];
      ChainGrows(before, init, r);
      ChainOfAppend(init, last, r);
    }
  }

  lemma SubjectStays(before: Ledger, now: Ledger, r: ReceiptId)
    requires before <= now && Chain(before, r) != []
    ensures Chain(now, r) != [] && Subject(now, r) == Subject(before, r)
  {
    ChainGrows(before, now, r);
  }

  /** What a consume's own read saw: its receipt's authorization, and no other consumed receipt of the subject. */
  lemma NoneAtRead(before: Ledger, c: ConsumeCall)
    requires LedgerInv(before) && ReadConsume(before, c).Ok? && ReadConsume(before, c).value.Append?
    ensures Chain(before, c.r) != []
    ensures forall q :: q != c.r && |Chain(before, q)| == 4 ==> Subject(before, q) != Subject(before, c.r)
  {
    ConsumeChecked(before, c);
    assert ChainBuilt(before, c.r);
    StageRecorded(before, c.r, Authorized);
    hide ReadConsume, LedgerInv, Chain;
    forall q | q != c.r && |Chain(before, q)| == 4
      ensures Subject(before, q) != Subject(before, c.r)
    {
      var i := DoneOf(before, q);
    }
  }

  lemma ConsumedBetween(before: Ledger, now: Ledger, r: ReceiptId, q: ReceiptId)
    requires before <= now && Chain(before, r) != [] && |Chain(before, q)| == 4 && SameSubject(now, q, r)
    ensures Subject(before, q) == Subject(before, r)
  {
    SubjectStays(before, now, r);
    SubjectStays(before, now, q);
  }

  /** So a consumed receipt of the subject that stands later was consumed in between. */
  lemma NoneSinceMeans(before: Ledger, now: Ledger, c: ConsumeCall)
    requires LedgerInv(before) && before <= now && ReadConsume(before, c).Ok? && ReadConsume(before, c).value.Append?
    ensures NoneSince(before, now, c.r) <==> forall q :: q != c.r && |Chain(now, q)| == 4 ==> !SameSubject(now, q, c.r)
  {
    NoneAtRead(before, c);
    hide ReadConsume, LedgerInv, Chain, Subject, SameSubject;
    forall q | q != c.r && |Chain(now, q)| == 4 && SameSubject(now, q, c.r)
      ensures |Chain(before, q)| != 4
    {
      if |Chain(before, q)| == 4 {
        ConsumedBetween(before, now, c.r, q);
        assert false;
      }
    }
  }

  lemma CompletingBreaks(before: Ledger, after: Ledger, r: ReceiptId, e: Event, q: ReceiptId)
    requires OneMore(before, after, r, e) && |Chain(before, r)| == 3 && q != r && |Chain(before, q)| == 4
    requires Subject(before, q) == Subject(before, r)
    ensures !OneTerminal(after)
  {
    assert Chain(after, q) == Chain(before, q) && Chain(after, r) == Chain(before, r) + [e];
    assert Subject(after, q) == Subject(after, r);
  }

  lemma PairKeepsOneExactly(ledger: Ledger, after: Ledger, r: ReceiptId, e: Event)
    requires OneTerminal(ledger) && OneMore(ledger, after, r, e) && |Chain(ledger, r)| == 3
    ensures OneTerminal(after) <==> forall q :: q != r && |Chain(ledger, q)| == 4 ==> !SameSubject(ledger, q, r)
  {
    hide Chain;
    if q :| q != r && |Chain(ledger, q)| == 4 && SameSubject(ledger, q, r) {
      CompletingBreaks(ledger, after, r, e, q);
    } else {
      hide OneTerminal, OneMore;
      assert forall q :: q != r && |Chain(ledger, q)| == 4 ==> !SameSubject(ledger, q, r);
      OneMoreKeepsOne(ledger, after, r, e);
    }
  }

  lemma ConsumesFor(before: Ledger, c: ConsumeCall)
    requires ReadConsume(before, c).Ok? && ReadConsume(before, c).value.Append?
    ensures var w := ReadConsume(before, c).value.write;
            w.Terminal? && w.done.kind.TaskDone? && w.consumed.key == ReceiptKey(c.r, Consumed)
              && InChain(Named(w.done, w.consumed), c.r)
  {
    ConsumeChecked(before, c);
    hide ReadConsume;
  }

  /**
   A consume that read an earlier ledger keeps the claim exactly if its commit is void or no other receipt of its
   subject was consumed since that read.
   */
  lemma CommitKeepsOneExactly(before: Ledger, ledger: Ledger, c: ConsumeCall)
    requires LedgerInv(before) && LedgerInv(ledger) && OneTerminal(ledger) && before <= ledger && c.doneId != ""
    requires ReadConsume(before, c).Ok? && ReadConsume(before, c).value.Append?
    requires WriteOk(ledger, ReadConsume(before, c).value.write)
    ensures var after := Commit(ledger, ReadConsume(before, c).value.write);
            OneTerminal(after) <==> after == ledger || NoneSince(before, ledger, c.r)
  {
    hide *;
    ConsumesFor(before, c);
    NoneSinceMeans(before, ledger, c);
    var w := ReadConsume(before, c).value.write;
    CommitTerminalIsPair(ledger, w.done, w.consumed);
    var after := Commit(ledger, w);
    if after != ledger {
      PairIsOneMore(ledger, w.done, Named(w.done, w.consumed), c.r);
      PairKeepsOneExactly(ledger, after, c.r, Named(w.done, w.consumed));
    }
  }

  lemma NextGrows(s: System, m: Move)
    requires Inv(s) && MoveOk(s, m)
    ensures s.ledger <= Next(s, m).ledger && s.pending <= Next(s, m).pending
  {
    hide LedgerInv, WriteOk, Chain;
    match m
    case Reads(_) =>
    case Elsewhere(_) =>
    case Commits(i) =>
      var w := s.pending[i];
      if w.One? {
        CommitOneIs(s.ledger, w.event);
      } else {
        CommitTerminalIsPair(s.ledger, w.done, w.consumed);
      }
  }

  lemma {:induction false} RunGrows(run: seq<System>, moves: seq<Move>, k: nat, n: nat)
    requires IsRun(run, moves) && k <= n < |run|
    ensures run[k].ledger <= run[n].ledger && run[k].pending <= run[n].pending
  {
    hide Inv, Next, MoveOk;
    if k < n {
      RunGrows(run, moves, k, n - 1);
      RunKeeps(run, moves, n - 1);
      assert Moved(run, moves, n - 1);
      NextGrows(run[n - 1], moves[n - 1]);
      assert run[n - 1].ledger <= run[n].ledger && run[n - 1].pending <= run[n].pending;
    }
  }

  /** Move `k` is the read that decided the pending write `i`. */
  predicate IsReadOf(run: seq<System>, k: nat, i: nat)
    requires k + 1 < |run|
  {
    |run[k].pending| == i < |run[k + 1].pending|
  }

  lemma {:induction false} ReadOf(run: seq<System>, moves: seq<Move>, n: nat, i: nat) returns (k: nat)
    requires IsRun(run, moves) && n < |run| && i < |run[n].pending|
    ensures k < n && IsReadOf(run, k, i) && moves[k].Reads?
    ensures Read(run[k].ledger, moves[k].call) == Ok(Append(run[n].pending[i]))
  {
    hide Read, Commit;
    assert n > 0;
    assert Moved(run, moves, n - 1);
    if i < |run[n - 1].pending| {
      k := ReadOf(run, moves, n - 1, i);
      RunGrows(run, moves, n - 1, n);
    } else {
      k := n - 1;
    }
  }

  /** If move `n` commits a consume, no other receipt of its subject was consumed since the consume's own read. */
  ghost predicate Guarded(run: seq<System>, moves: seq<Move>, n: nat)
    requires |run| == |moves| + 1 && n < |moves|
  {
    moves[n].Commits? ==>
      forall k | 0 <= k < n && IsReadOf(run, k, moves[n].i) && moves[k].Reads? && moves[k].call.Consuming? ::
        NoneSince(run[k].ledger, run[n].ledger, moves[k].call.k.r)
  }

  lemma OtherReadsAreOne(ledger: Ledger, call: Call)
    requires Read(ledger, call).Ok? && Read(ledger, call).value.Append? && !call.Consuming?
    ensures Read(ledger, call).value.write.One?
  {
  }

  lemma GuardedCommitKeeps(run: seq<System>, moves: seq<Move>, n: nat)
    requires IsRun(run, moves) && n < |moves| && moves[n].Commits? && Guarded(run, moves, n)
    requires OneTerminal(run[n].ledger)
    ensures OneTerminal(run[n + 1].ledger)
  {
    hide LedgerInv, WriteOk, Read, ReadConsume, Commit, OneTerminal, NoneSince;
    RunKeeps(run, moves, n);
    assert Moved(run, moves, n);
    var i := moves[n].i;
    var w := run[n].pending[i];
    assert WriteOk(run[n].ledger, w);
    var k := ReadOf(run, moves, n, i);
    RunKeeps(run, moves, k);
    assert Moved(run, moves, k);
    var call := moves[k].call;
    if call.Consuming? {
      RunGrows(run, moves, k, n);
      ConsumingReads(run[k].ledger, call);
      CommitKeepsOneExactly(run[k].ledger, run[n].ledger, call.k);
    } else {
      OtherReadsAreOne(run[k].ledger, call);
      WriteKeepsOne(run[n].ledger, w.event);
    }
  }

  lemma ConsumingReads(ledger: Ledger, call: Call)
    requires call.Consuming?
    ensures Read(ledger, call) == ReadConsume(ledger, call.k)
  {
  }

  /**
   However reads and appends interleave: at most one receipt is ever consumed for a workspace and task, if each consume
   commits only where no other receipt of its subject was consumed since its own read.
   */
  lemma {:induction false} GuardedRunsHaveOneTerminal(run: seq<System>, moves: seq<Move>, n: nat)
    requires IsRun(run, moves) && n < |run| && forall j | 0 <= j < n :: Guarded(run, moves, j)
    ensures OneTerminal(run[n].ledger)
  {
    if n > 0 {
      hide Inv, Read, Commit, OneTerminal, Guarded, LedgerInv;
      GuardedRunsHaveOneTerminal(run, moves, n - 1);
      RunKeeps(run, moves, n - 1);
      assert Moved(run, moves, n - 1);
      match moves[n - 1]
      case Reads(_) =>
      case Commits(_) =>
        assert Guarded(run, moves, n - 1);
        GuardedCommitKeeps(run, moves, n - 1);
      case Elsewhere(e) =>
        InvOfLedger(run[n - 1]);
        AsideKeepsOne(run[n - 1].ledger, e);
    } else {
      NoneInEmpty();
    }
  }

  lemma InvOfLedger(s: System)
    requires Inv(s)
    ensures LedgerInv(s.ledger)
  {
  }

  lemma NoneInEmpty()
    ensures OneTerminal([])
  {
  }
}
