/** What the generic outbox does not promise when its processes overlap: concrete runs of the delivery system. */
module DeliveryRaces {
  import opened Text
  import opened Delivery

  function RunMoves(s: System, moves: seq<Move>): System {
    if moves == [] then s else Next(RunMoves(s, moves[..|moves| - 1]), moves[|moves| - 1])
  }

  lemma {:induction false} RunsOn(s: System, first: seq<Move>, more: seq<Move>)
    ensures RunMoves(s, first + more) == RunMoves(RunMoves(s, first), more)
  {
    if more == [] {
      assert first + more == first;
    } else {
      assert (first + more)[..|first + more| - 1] == first + more[..|more| - 1];
      RunsOn(s, first, more[..|more| - 1]);
    }
  }

  const TASK := Row("discord", "general", PlainKey("note"), None, Pending, None, 0)

  /** One row, which a pump of any scope would take now. */
  predicate OneSendable(s: System) {
    |s.rows| == 1 && s.rows[0].key == TASK.key && s.rows[0].content == None && s.rows[0].platform == "discord"
      && s.rows[0].status == Pending
  }

  lemma Extend(s: System, moves: seq<Move>, m: Move)
    ensures RunMoves(s, moves + [m]) == Next(RunMoves(s, moves), m)
  {
    assert (moves + [m])[..|moves|] == moves;
  }

  /** Moves of pumps and senders only: nothing is enqueued, nothing recovered. */
  predicate PumpsOnly(moves: seq<Move>) {
    forall i | 0 <= i < |moves| :: moves[i].Advance? || (moves[i].Spawn? && moves[i].process.Listing?)
  }

  function Ticks(i: nat, answer: Answer, n: nat): (moves: seq<Move>)
    ensures PumpsOnly(moves)
  {
    seq(n, _ => Advance(i, answer, true))
  }

  lemma Tick(s: System, i: nat, answer: Answer, n: nat)
    ensures RunMoves(s, Ticks(i, answer, n + 1)) == Next(RunMoves(s, Ticks(i, answer, n)), Advance(i, answer, true))
  {
    assert Ticks(i, answer, n + 1) == Ticks(i, answer, n) + [Advance(i, answer, true)];
    Extend(s, Ticks(i, answer, n), Advance(i, answer, true));
  }

  lemma ListedOne(rows: Table)
    requires |rows| == 1 && rows[0].content.None? && rows[0].platform == "discord" && rows[0].status == Pending
    ensures Listed(rows, Pending, None) == [0] && Listed(rows, Failed, None) == []
  {
    assert rows[..0] == [];
  }

  function WithLast(s: System, p: Process): System {
    s.(processes := s.processes + [p])
  }

  lemma LastListing(s: System, answer: Answer)
    requires OneSendable(s)
    ensures Next(WithLast(s, Listing(None, 1)), Advance(|s.processes|, answer, true)) ==
              WithLast(s, ListingFailed(None, 1, [0]))
  {
    ListedOne(s.rows);
    assert (s.processes + [Listing(None, 1)])[|s.processes| := ListingFailed(None, 1, [0])] ==
      s.processes + [ListingFailed(None, 1, [0])];
  }

  lemma LastListingFailed(s: System, answer: Answer)
    requires OneSendable(s)
    ensures Next(WithLast(s, ListingFailed(None, 1, [0])), Advance(|s.processes|, answer, true)) ==
              WithLast(s, Pumping([0]))
  {
    ListedOne(s.rows);
    assert [0] + [] == [0];
    assert (s.processes + [ListingFailed(None, 1, [0])])[|s.processes| := Pumping([0])] == s.processes + [Pumping([0])];
  }

  lemma LastPumping(s: System, answer: Answer)
    requires OneSendable(s)
    ensures Next(WithLast(s, Pumping([0])), Advance(|s.processes|, answer, true)) == WithLast(s, Checked(0, []))
  {
    assert [0][1..] == [];
    assert (s.processes + [Pumping([0])])[|s.processes| := Checked(0, [])] == s.processes + [Checked(0, [])];
  }

  /** Three ticks of the last process, each with its own result. */
  lemma ThreeTicks(k: nat, t0: System, t1: System, t2: System, t3: System)
    requires Next(t0, Advance(k, Unclear, true)) == t1 && Next(t1, Advance(k, Unclear, true)) == t2
    requires Next(t2, Advance(k, Unclear, true)) == t3
    ensures RunMoves(t0, Ticks(k, Unclear, 3)) == t3
  {
    hide Next;
    Tick(t0, k, Unclear, 0);
    Tick(t0, k, Unclear, 1);
    Tick(t0, k, Unclear, 2);
    assert Ticks(k, Unclear, 0) == [];
  }

  /** A new pump lists the row and passes the status check. */
  lemma JoinPump(s: System) returns (moves: seq<Move>)
    requires OneSendable(s)
    ensures PumpsOnly(moves) && RunMoves(s, moves) == WithLast(s, Checked(0, []))
  {
    hide Next, WithLast, OneSendable, RunMoves;
    var k := |s.processes|;
    LastListing(s, Unclear);
    LastListingFailed(s, Unclear);
    LastPumping(s, Unclear);
    ThreeTicks(k, WithLast(s, Listing(None, 1)), WithLast(s, ListingFailed(None, 1, [0])), WithLast(s, Pumping([0])),
               WithLast(s, Checked(0, [])));
    moves := [Spawn(Listing(None, 1))] + Ticks(k, Unclear, 3);
    SpawnIs(s, Listing(None, 1));
    RunsOn(s, [Spawn(Listing(None, 1))], Ticks(k, Unclear, 3));
  }

  lemma SpawnIs(s: System, p: Process)
    ensures RunMoves(s, [Spawn(p)]) == WithLast(s, p)
  {
    assert [Spawn(p)][..0] == [];
  }

  /** A pump that passed the check sends, whatever became of the row since. */
  lemma CheckedPumpSends(s: System, i: nat, answer: Answer)
    requires i < |s.processes| && s.processes[i] == Checked(0, []) && |s.rows| == 1
    ensures var t := RunMoves(s, Ticks(i, answer, 4));
            && t.posts == s.posts + [Post(0, s.rows[0].key, answer)] && |t.rows| == 1 && t.rows[0].key == s.rows[0].key
            && |t.processes| == |s.processes|
            && (forall j | 0 <= j < |s.processes| && j != i :: t.processes[j] == s.processes[j])
            && t.processes[i].Returned? && t.processes[i].id == 0 && t.processes[i].answer == answer
            && t.processes[i].queue == []
            && t.rows[0] == s.rows[0].(status := Sending, attempts := s.rows[0].attempts + 1)
  {
    Tick(s, i, answer, 0);
    Tick(s, i, answer, 1);
    Tick(s, i, answer, 2);
    Tick(s, i, answer, 3);
    assert RunMoves(s, Ticks(i, answer, 0)) == s;
    assert RunMoves(s, Ticks(i, answer, 1)) == Become(s, i, Counted(0, s.rows[0].attempts, []));
    assert RunMoves(s, Ticks(i, answer, 2)).processes[i] == Marked(0, []);
    assert RunMoves(s, Ticks(i, answer, 3)).processes[i].Ready?;
  }

  /** The same with any number of pumps: all pass the check before one of them marks the row. */
  lemma {:induction false} JoinPumps(s: System, n: nat) returns (moves: seq<Move>)
    requires OneSendable(s) && s.processes == []
    ensures PumpsOnly(moves)
    ensures RunMoves(s, moves) == s.(processes := seq(n, _ => Checked(0, [])))
  {
    if n == 0 {
      moves := [];
      assert s.(processes := seq(0, _ => Checked(0, []))) == s;
    } else {
      var earlier := JoinPumps(s, n - 1);
      var mid := RunMoves(s, earlier);
      var last := JoinPump(mid);
      moves := earlier + last;
      RunsOn(s, earlier, last);
      assert seq(n, _ => Checked(0, [])) == seq(n - 1, _ => Checked(0, [])) + [Checked(0, [])];
    }
  }

  predicate AllChecked(s: System, n: nat) {
    n <= |s.processes| && forall i | 0 <= i < n :: s.processes[i] == Checked(0, [])
  }

  lemma {:induction false} AllSend(s: System, n: nat, answer: Answer) returns (moves: seq<Move>)
    requires |s.rows| == 1 && s.posts == [] && AllChecked(s, n)
    ensures PumpsOnly(moves)
    ensures var t := RunMoves(s, moves);
            |t.rows| == 1 && t.rows[0].key == s.rows[0].key && |t.processes| == |s.processes|
            && t.posts == seq(n, _ => Post(0, s.rows[0].key, answer))
            && forall j | n <= j < |s.processes| :: t.processes[j] == s.processes[j]
  {
    if n == 0 {
      moves := [];
    } else {
      var earlier := AllSend(s, n - 1, answer);
      var mid := RunMoves(s, earlier);
      moves := earlier + Ticks(n - 1, answer, 4);
      RunsOn(s, earlier, Ticks(n - 1, answer, 4));
      CheckedPumpSends(mid, n - 1, answer);
      assert seq(n, _ => Post(0, s.rows[0].key, answer)) ==
        seq(n - 1, _ => Post(0, s.rows[0].key, answer)) + [Post(0, s.rows[0].key, answer)];
    }
  }

  /**
   Pumps that overlap are not bounded by the attempt limit: for every n there is a run without any recovery in which one
   generic row is sent n times, every call returning a message id.
   */
  lemma OverlappingPumpsUnbounded(n: nat, text: string) returns (moves: seq<Move>)
    ensures PumpsOnly(moves)
    ensures RunMoves(EMPTY, [Enqueue(TASK)] + moves).posts == seq(n, _ => Post(0, TASK.key, Returns(text)))
  {
    var s := Next(EMPTY, Enqueue(TASK));
    assert [Enqueue(TASK)][..0] == [];
    assert RunMoves(EMPTY, [Enqueue(TASK)]) == s;
    var first := JoinPumps(s, n);
    var all := s.(processes := seq(n, _ => Checked(0, [])));
    var second := AllSend(all, n, Returns(text));
    moves := first + second;
    RunsOn(s, first, second);
    RunsOn(EMPTY, [Enqueue(TASK)], moves);
  }

  /** The row is sending, called for once, and its pump has the answer in hand. */
  predicate InFlight(s: System, text: string) {
    && |s.rows| == 1 && s.rows[0].content.None? && s.rows[0].platform == "discord" && s.rows[0].key == TASK.key
    && s.rows[0].status == Sending
    && |s.processes| == 1 && s.processes[0].Returned? && s.processes[0].id == 0
    && s.processes[0].answer == Returns(text)
    && s.posts == [Post(0, TASK.key, Returns(text))]
  }

  lemma FirstSend(text: string) returns (moves: seq<Move>)
    ensures (forall i | 0 <= i < |moves| :: MoveOk(moves[i])) && InFlight(RunMoves(EMPTY, moves), text)
  {
    var s0 := Next(EMPTY, Enqueue(TASK));
    assert [Enqueue(TASK)][..0] == [];
    assert RunMoves(EMPTY, [Enqueue(TASK)]) == s0;
    var join := JoinPump(s0);
    var s1 := WithLast(s0, Checked(0, []));
    CheckedPumpSends(s1, 0, Returns(text));
    moves := [Enqueue(TASK)] + join + Ticks(0, Returns(text), 4);
    hide RunMoves;
    RunsOn(EMPTY, [Enqueue(TASK)], join);
    RunsOn(EMPTY, [Enqueue(TASK)] + join, Ticks(0, Returns(text), 4));
  }

  lemma SecondSend(s: System, more: string) returns (moves: seq<Move>)
    requires OneSendable(s) && |s.processes| == 2
    ensures PumpsOnly(moves) && RunMoves(s, moves).posts == s.posts + [Post(0, TASK.key, Returns(more))]
  {
    var join := JoinPump(s);
    CheckedPumpSends(WithLast(s, Checked(0, [])), 2, Returns(more));
    moves := join + Ticks(2, Returns(more), 4);
    hide RunMoves;
    RunsOn(s, join, Ticks(2, Returns(more), 4));
  }

  /**
   A recovery pass that overlaps a pump can reopen a row that was sent: it selects the row while it is sending and
   updates it after the pump stored the outcome, so the next pump sends it again.
   */
  lemma StaleRecoveryResends(text: string, more: string) returns (moves: seq<Move>)
    ensures forall i | 0 <= i < |moves| :: MoveOk(moves[i])
    ensures RunMoves(EMPTY, moves).posts == [Post(0, TASK.key, Returns(text)), Post(0, TASK.key, Returns(more))]
  {
    hide RunMoves, OneSendable;
    var first := FirstSend(text);
    var stale := [Spawn(Recovering(None)), Advance(1, Unclear, true), Advance(0, Unclear, true),
                  Advance(1, Unclear, true)];
    StaleReopens(RunMoves(EMPTY, first), stale);
    RunsOn(EMPTY, first, stale);
    var second := SecondSend(RunMoves(EMPTY, first + stale), more);
    RunsOn(EMPTY, first + stale, second);
    moves := first + stale + second;
  }

  lemma StaleReopens(s: System, stale: seq<Move>)
    requires |s.rows| == 1 && s.rows[0].content.None? && s.rows[0].platform == "discord" && s.rows[0].key == TASK.key
    requires s.rows[0].status == Sending
    requires |s.processes| == 1 && s.processes[0].Returned? && s.processes[0].id == 0 && s.processes[0].answer.Returns?
    requires stale ==
               [Spawn(Recovering(None)), Advance(1, Unclear, true), Advance(0, Unclear, true),
                Advance(1, Unclear, true)]
    ensures RunMoves(s, stale).posts == s.posts && |RunMoves(s, stale).processes| == 2
    ensures OneSendable(RunMoves(s, stale))
  {
    hide OneSendable, Next, WithLast;
    var t1 := WithLast(s, Recovering(None));
    Extend(s, [], stale[0]);
    Extend(s, [stale[0]], stale[1]);
    Extend(s, [stale[0], stale[1]], stale[2]);
    Extend(s, [stale[0], stale[1], stale[2]], stale[3]);
    assert RunMoves(s, []) == s;
    assert [] + [stale[0]] == [stale[0]] && [stale[0]] + [stale[1]] == [stale[0], stale[1]];
    assert [stale[0], stale[1]] + [stale[2]] == [stale[0], stale[1], stale[2]];
    assert [stale[0], stale[1], stale[2]] + [stale[3]] == stale;
    SpawnIs(s, Recovering(None));
    var t2 := RecoverySelects(s, t1);
    var t3 := OutcomeStored(s, t2);
    var t4 := StaleUpdate(s, t3);
  }

  lemma RecoverySelects(s: System, t: System) returns (u: System)
    requires |s.rows| == 1 && s.rows[0].content.None? && s.rows[0].status == Sending && |s.processes| == 1
    requires t == WithLast(s, Recovering(None))
    ensures u == Next(t, Advance(1, Unclear, true))
    ensures u.rows == s.rows && u.posts == s.posts && u.processes == s.processes + [Selected([0])]
  {
    u := Next(t, Advance(1, Unclear, true));
    assert s.rows[..0] == [];
    assert Stuck(s.rows, None) == [0];
  }

  lemma OutcomeStored(s: System, t: System) returns (u: System)
    requires |s.rows| == 1 && s.rows[0].content.None? && s.rows[0].platform == "discord" && s.rows[0].key == TASK.key
    requires |s.processes| == 1 && s.processes[0].Returned? && s.processes[0].id == 0 && s.processes[0].answer.Returns?
    requires t.rows == s.rows && t.posts == s.posts && t.processes == s.processes + [Selected([0])]
    ensures u == Next(t, Advance(0, Unclear, true))
    ensures u.posts == s.posts && |u.processes| == 2 && u.processes[1] == Selected([0])
    ensures |u.rows| == 1 && u.rows[0].status == Sent && u.rows[0].content.None? && u.rows[0].platform == "discord"
    ensures u.rows[0].key == TASK.key
  {
    u := Next(t, Advance(0, Unclear, true));
  }

  lemma StaleUpdate(s: System, t: System) returns (u: System)
    requires |t.processes| == 2 && t.processes[1] == Selected([0]) && t.posts == s.posts
    requires |t.rows| == 1 && t.rows[0].content.None? && t.rows[0].platform == "discord" && t.rows[0].key == TASK.key
    ensures u == Next(t, Advance(1, Unclear, true)) && u.posts == s.posts && |u.processes| == 2 && OneSendable(u)
  {
    u := Next(t, Advance(1, Unclear, true));
  }
}
