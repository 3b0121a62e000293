/**
 What the generic outbox does promise when its processes overlap: how often a row is sent, and when a final row stays.

 Between the check of a row's status and the storing of its outcome a pump holds the row.  Two pumps that hold one row
 at a time break the bound (`DeliveryRaces`); recovery passes, senders, crashes and pumps of other rows do not.
 */
module DeliveryBound {
  import opened Text
  import opened Delivery

  predicate Holds(p: Process, id: nat) {
    (p.Checked? || p.Counted? || p.Marked? || p.Ready? || p.Returned?) && p.id == id
  }

  /** No two processes hold the row. */
  predicate Exclusive(s: System, id: nat) {
    forall i, j | 0 <= i < j < |s.processes| :: !(Holds(s.processes[i], id) && Holds(s.processes[j], id))
  }

  /** The number of adapter calls for a row. */
  function Sends(posts: seq<Post>, id: nat): nat {
    if posts == [] then 0 else Sends(posts[..|posts| - 1], id) + if posts[|posts| - 1].id == id then 1 else 0
  }

  lemma SendsOfOne(posts: seq<Post>, post: Post, id: nat)
    ensures Sends(posts + [post], id) == Sends(posts, id) + if post.id == id then 1 else 0
  {
    assert (posts + [post])[..|posts|] == posts;
  }

  /** Does the move let a recovery pass update the row? */
  predicate Reopens(s: System, m: Move, id: nat) {
    m.Advance? && m.i < |s.processes| && s.processes[m.i].Selected? && id in s.processes[m.i].ids
  }

  /** How often recovery passes have updated the row, sending or not. */
  function Reopened(run: seq<System>, moves: seq<Move>, n: nat, id: nat): nat
    requires n <= |moves| <= |run|
  {
    if n == 0 then 0 else Reopened(run, moves, n - 1, id) + if Reopens(run[n - 1], moves[n - 1], id) then 1 else 0
  }

  // ---------------------------------------------------------------- the bound

  /** What a process that holds the row knows of it, with `sends` calls made and `limit` attempts allowed. */
  predicate HolderOk(row: Row, sends: nat, limit: nat, p: Process) {
    match p
    case Checked(_, _) => row.attempts < limit
    case Counted(_, counted, _) => counted == row.attempts < limit
    case Marked(_, _) => sends < row.attempts
    case Ready(_, counted, _) => counted == row.attempts && sends < row.attempts
    case Returned(_, counted, _, _) => counted == row.attempts
    case _ => true
  }

  predicate RowBounded(row: Row, sends: nat, limit: nat) {
    sends <= row.attempts <= limit && (Sendable(row) ==> row.attempts < limit)
  }

  predicate HoldersOk(s: System, id: nat, limit: nat)
    requires id < |s.rows|
  {
    forall i | 0 <= i < |s.processes| && Holds(s.processes[i], id) ::
      HolderOk(s.rows[id], Sends(s.posts, id), limit, s.processes[i])
  }

  /** Calls never outnumber attempts, and attempts pass the limit only by recoveries. */
  predicate Bounded(s: System, id: nat, limit: nat) {
    Generic(s.rows, id) ==> RowBounded(s.rows[id], Sends(s.posts, id), limit) && HoldersOk(s, id, limit)
  }

  /**
   Only process `i` moved, the row and its calls stayed, and the process holds the row only if it has just checked it.
   */
  predicate Left(s: System, t: System, i: nat, id: nat)
    requires id < |s.rows| && i < |s.processes|
  {
    && Generic(t.rows, id) && t.rows[id] == s.rows[id] && Sends(t.posts, id) == Sends(s.posts, id)
    && |t.processes| == |s.processes|
    && (forall j | 0 <= j < |s.processes| && j != i :: t.processes[j] == s.processes[j])
    && (Holds(t.processes[i], id) ==> t.processes[i].Checked? && Sendable(s.rows[id]))
  }

  lemma ProcessFact(s: System, i: nat)
    requires Inv(s) && i < |s.processes|
    ensures ProcessOk(s.rows, s.posts, s.processes[i])
  {
  }

  lemma SenderLeaves(s: System, i: nat, answer: Answer, stored: bool, id: nat)
    requires Inv(s) && Generic(s.rows, id) && i < |s.processes| && IsSender(s.processes[i])
    ensures Left(s, SenderStep(s, i, answer, stored), i, id)
  {
    hide Inv, Sends, FindKey, Inspect, Announced, Unposted, Replay, Receipt, Sendable;
    var p := s.processes[i];
    ProcessFact(s, i);
    match p
    case Claimed(q, claimed) => SendsOfOne(s.posts, Post(claimed, q.MessageKey(), answer), id);
    case Posted(_, _, _) => hide Finish;
    case Cleared(_) => hide Finish;
    case _ =>
  }

  lemma PumpLeaves(s: System, i: nat, answer: Answer, id: nat)
    requires Inv(s) && Generic(s.rows, id) && i < |s.processes| && !Holds(s.processes[i], id)
    requires !IsSender(s.processes[i])
    ensures Left(s, PumpStep(s, i, answer), i, id)
  {
    var p := s.processes[i];
    assert ProcessOk(s.rows, s.posts, p);
    if p.Ready? {
      SendsOfOne(s.posts, Post(p.id, s.rows[p.id].key, answer), id);
    }
    hide Sends, Listed, Take, Inv, MarkSending, MarkOutcome, Sendable;
  }

  lemma RecoveryLeaves(s: System, i: nat, id: nat)
    requires Inv(s) && Generic(s.rows, id) && i < |s.processes|
    requires s.processes[i].Recovering? || s.processes[i].Selected?
    requires s.processes[i].Selected? ==> id !in s.processes[i].ids
    ensures Left(s, RecoveryStep(s, i), i, id)
  {
    hide Sends, Stuck, Inv, Sendable;
  }

  /** A process that does not hold the row leaves it, unless it is a recovery pass that selected it. */
  lemma OthersLeave(s: System, m: Move, id: nat)
    requires Inv(s) && Generic(s.rows, id) && m.Advance? && m.i < |s.processes|
    requires !Holds(s.processes[m.i], id) && !Reopens(s, m, id)
    ensures Left(s, Next(s, m), m.i, id)
  {
    hide Inv, Left, SenderStep, PumpStep, RecoveryStep;
    if IsSender(s.processes[m.i]) {
      SenderLeaves(s, m.i, m.answer, m.stored, id);
    } else if s.processes[m.i].Recovering? || s.processes[m.i].Selected? {
      RecoveryLeaves(s, m.i, id);
    } else {
      PumpLeaves(s, m.i, m.answer, id);
    }
  }

  lemma HolderMoves(s: System, m: Move, id: nat)
    requires m.Advance? && m.i < |s.processes| && Holds(s.processes[m.i], id)
    ensures Next(s, m) == PumpStep(s, m.i, m.answer)
  {
    hide PumpStep, SenderStep, RecoveryStep;
  }

  /** Process `i` moved, and still knows of the row what it should. */
  predicate Held(s: System, t: System, i: nat, id: nat, limit: nat)
    requires i < |s.processes|
  {
    && Generic(t.rows, id) && RowBounded(t.rows[id], Sends(t.posts, id), limit)
    && |t.processes| == |s.processes|
    && (forall j | 0 <= j < |s.processes| && j != i :: t.processes[j] == s.processes[j])
    && (Holds(t.processes[i], id) ==> HolderOk(t.rows[id], Sends(t.posts, id), limit, t.processes[i]))
  }

  /** A step of the process that holds the row. */
  lemma HolderStep(s: System, i: nat, answer: Answer, id: nat, limit: nat)
    requires Generic(s.rows, id) && i < |s.processes| && Holds(s.processes[i], id) && limit >= MAX_ATTEMPTS
    requires RowBounded(s.rows[id], Sends(s.posts, id), limit)
    requires HolderOk(s.rows[id], Sends(s.posts, id), limit, s.processes[i])
    ensures Held(s, PumpStep(s, i, answer), i, id, limit)
  {
    hide Sends, Listed, Take;
    match s.processes[i]
    case Checked(_, _) =>
    case Counted(_, _, _) =>
    case Marked(_, _) =>
    case Ready(_, _, _) => SendsOfOne(s.posts, Post(id, s.rows[id].key, answer), id);
    case Returned(_, _, _, _) =>
    case _ =>
  }

  lemma OthersDoNot(s: System, i: nat, id: nat)
    requires Exclusive(s, id) && i < |s.processes| && Holds(s.processes[i], id)
    ensures forall j | 0 <= j < |s.processes| && j != i :: !Holds(s.processes[j], id)
  {
  }

  lemma AdvanceBounded(s: System, m: Move, id: nat, limit: nat)
    requires Inv(s) && Bounded(s, id, limit) && limit >= MAX_ATTEMPTS && Exclusive(s, id)
    requires m.Advance? && m.i < |s.processes| && Generic(s.rows, id) && !Reopens(s, m, id)
    ensures Bounded(Next(s, m), id, limit)
  {
    hide Next, Inv, RowBounded, HolderOk, Sends;
    var t := Next(s, m);
    if Holds(s.processes[m.i], id) {
      HolderMoves(s, m, id);
      assert HolderOk(s.rows[id], Sends(s.posts, id), limit, s.processes[m.i]);
      HolderStep(s, m.i, m.answer, id, limit);
      OthersDoNot(s, m.i, id);
    } else {
      OthersLeave(s, m, id);
      forall j | 0 <= j < |t.processes| && Holds(t.processes[j], id)
        ensures HolderOk(t.rows[id], Sends(t.posts, id), limit, t.processes[j])
      {
        if j == m.i {
          CheckedOk(s.rows[id], Sends(s.posts, id), limit, t.processes[j]);
        }
      }
    }
  }

  /** A recovery pass updates the row: one more attempt is allowed. */
  lemma ReopenBounded(s: System, m: Move, id: nat, limit: nat)
    requires Inv(s) && Bounded(s, id, limit) && Generic(s.rows, id) && Reopens(s, m, id)
    ensures Bounded(Next(s, m), id, limit + 1)
  {
    hide Inv, Sends;
    var t := Next(s, m);
    assert t.rows[id] == Recovered(s.rows[id]);
    forall j | 0 <= j < |t.processes| && Holds(t.processes[j], id)
      ensures HolderOk(t.rows[id], Sends(t.posts, id), limit + 1, t.processes[j])
    {
      assert t.processes[j] == s.processes[j];
      assert HolderOk(s.rows[id], Sends(s.posts, id), limit, s.processes[j]);
    }
  }

  /** A row that is not there has no calls and no holders. */
  lemma AbsentRow(s: System, id: nat)
    requires Inv(s) && id >= |s.rows|
    ensures Sends(s.posts, id) == 0 && forall i | 0 <= i < |s.processes| :: !Holds(s.processes[i], id)
  {
    forall i | 0 <= i < |s.processes| ensures !Holds(s.processes[i], id) {
      assert ProcessOk(s.rows, s.posts, s.processes[i]);
    }
    NoSends(s.posts, id);
  }

  lemma {:induction false} NoSends(posts: seq<Post>, id: nat)
    requires Unposted(posts, id)
    ensures Sends(posts, id) == 0
  {
    if posts != [] {
      NoSends(posts[..|posts| - 1], id);
    }
  }

  /** Moves that advance no process, or one that is not there. */
  lemma QuietBounded(s: System, m: Move, id: nat, limit: nat)
    requires Inv(s) && MoveOk(m) && Bounded(s, id, limit) && limit >= MAX_ATTEMPTS
    requires !(m.Advance? && m.i < |s.processes|)
    ensures Bounded(Next(s, m), id, limit)
  {
    hide Sends, FindKey;
    var t := Next(s, m);
    if id >= |s.rows| {
      AbsentRow(s, id);
    }
    if Generic(t.rows, id) {
      assert id < |s.rows| ==> t.rows[id] == s.rows[id];
      forall j | 0 <= j < |t.processes| && Holds(t.processes[j], id)
        ensures j < |s.processes| && t.processes[j] == s.processes[j]
      {
      }
    }
  }

  /** A sender's new row is a channel row. */
  lemma AdvanceAbsent(s: System, m: Move, id: nat)
    requires m.Advance? && m.i < |s.processes| && !Generic(s.rows, id)
    requires Inv(s)
    ensures !Generic(Next(s, m).rows, id)
  {
    assert ProcessOk(s.rows, s.posts, s.processes[m.i]);
  }

  lemma CheckedOk(row: Row, sends: nat, limit: nat, p: Process)
    requires RowBounded(row, sends, limit) && p.Checked? && Sendable(row)
    ensures HolderOk(row, sends, limit, p)
  {
  }

  lemma StepBounded(s: System, m: Move, id: nat, limit: nat)
    requires Inv(s) && MoveOk(m) && Bounded(s, id, limit) && limit >= MAX_ATTEMPTS && Exclusive(s, id)
    ensures Bounded(Next(s, m), id, limit + if Reopens(s, m, id) then 1 else 0)
  {
    hide Inv, Next, Exclusive;
    if !(m.Advance? && m.i < |s.processes|) {
      QuietBounded(s, m, id, limit);
    } else if !Generic(s.rows, id) {
      AdvanceAbsent(s, m, id);
    } else if Reopens(s, m, id) {
      ReopenBounded(s, m, id, limit);
    } else {
      AdvanceBounded(s, m, id, limit);
    }
  }

  /** Until `n`, at most one process held the row at a time. */
  ghost predicate HeldByOne(run: seq<System>, n: nat, id: nat)
    requires n < |run|
  {
    forall k | 0 <= k < n :: Exclusive(run[k], id)
  }

  lemma {:induction false} RunBounded(run: seq<System>, moves: seq<Move>, n: nat, id: nat)
    requires IsRun(run, moves) && n < |run| && HeldByOne(run, n, id)
    ensures Bounded(run[n], id, MAX_ATTEMPTS + Reopened(run, moves, n, id))
  {
    if n > 0 {
      hide Inv, Next, MoveOk, Exclusive, Bounded;
      RunBounded(run, moves, n - 1, id);
      RunKeeps(run, moves, n - 1);
      assert Moved(run, moves, n - 1);
      assert Exclusive(run[n - 1], id);
      StepBounded(run[n - 1], moves[n - 1], id, MAX_ATTEMPTS + Reopened(run, moves, n - 1, id));
    }
  }

  /** A channel row is called for once at most. */
  lemma {:induction false} ChannelSends(rows: Table, posts: seq<Post>, id: nat)
    requires PostsOk(rows, posts) && id < |rows| && IsChannel(rows[id])
    ensures Sends(posts, id) <= 1
  {
    if posts != [] {
      var init, last := posts[..|posts| - 1], posts[|posts| - 1];
      if last.id == id {
        assert forall a | 0 <= a < |init| :: init[a] == posts[a];
        NoSends(init, id);
      } else {
        ChannelSends(rows, init, id);
      }
    }
  }

  /**
   Whatever overlaps, if no two processes ever held the row at one time: it is sent at most the attempt limit, plus once
   for every time a recovery pass updated it.
   */
  lemma SendsAreBoundedUnlessHeldTwice(run: seq<System>, moves: seq<Move>, n: nat, id: nat)
    requires IsRun(run, moves) && n < |run| && HeldByOne(run, n, id)
    ensures Sends(run[n].posts, id) <= MAX_ATTEMPTS + Reopened(run, moves, n, id)
  {
    hide Sends, Inv;
    RunBounded(run, moves, n, id);
    RunKeeps(run, moves, n);
    Parts(run[n]);
    if id >= |run[n].rows| {
      AbsentRow(run[n], id);
    } else if IsChannel(run[n].rows[id]) {
      ChannelSends(run[n].rows, run[n].posts, id);
    }
  }

  lemma Parts(s: System)
    requires Inv(s)
    ensures PostsOk(s.rows, s.posts)
  {
  }

  // ---------------------------------------------------------------- who changes a final row

  lemma HolderReads(s: System, i: nat, answer: Answer, id: nat)
    requires Generic(s.rows, id) && i < |s.processes| && Holds(s.processes[i], id)
    requires !s.processes[i].Counted? && !s.processes[i].Returned?
    ensures PumpStep(s, i, answer).rows == s.rows
  {
  }

  /** A sent or dead row is changed only by a recovery pass that selected it, or by a process that already holds it. */
  lemma OnlyHoldersChange(s: System, m: Move, id: nat)
    requires Inv(s) && MoveOk(m) && id < |s.rows| && Final(s.rows[id])
    requires id >= |Next(s, m).rows| || Next(s, m).rows[id] != s.rows[id]
    ensures Reopens(s, m, id) || (m.Advance? && m.i < |s.processes| && Holds(s.processes[m.i], id)
                                  && (s.processes[m.i].Counted? || s.processes[m.i].Returned?))
  {
    hide Inv, FindKey, PumpStep, SenderStep, RecoveryStep, Sends;
    if m.Advance? && m.i < |s.processes| {
      if IsChannel(s.rows[id]) {
        FinalChannelRowsStay(s, m, id);
      } else if !Holds(s.processes[m.i], id) && !Reopens(s, m, id) {
        OthersLeave(s, m, id);
      } else if Holds(s.processes[m.i], id) && !s.processes[m.i].Counted? && !s.processes[m.i].Returned? {
        HolderMoves(s, m, id);
        HolderReads(s, m.i, m.answer, id);
      }
    }
  }

  /** No process holds the row, and no recovery pass has it selected. */
  predicate Released(s: System, id: nat) {
    forall i | 0 <= i < |s.processes| ::
      !Holds(s.processes[i], id) && (s.processes[i].Selected? ==> id !in s.processes[i].ids)
  }

  predicate Rests(s: System, id: nat) {
    id < |s.rows| && Final(s.rows[id]) && Released(s, id)
  }

  lemma GenericRests(s: System, m: Move, id: nat)
    requires Inv(s) && Rests(s, id) && Generic(s.rows, id) && m.Advance? && m.i < |s.processes|
    ensures var t := Next(s, m);
            && Generic(t.rows, id) && t.rows[id] == s.rows[id] && Sends(t.posts, id) == Sends(s.posts, id)
            && forall j | 0 <= j < |t.processes| :: !Holds(t.processes[j], id)
  {
    hide Inv, Next, Sends;
    OthersLeave(s, m, id);
  }

  lemma ChannelRests(s: System, m: Move, id: nat)
    requires Inv(s) && Rests(s, id) && IsChannel(s.rows[id]) && m.Advance? && m.i < |s.processes|
    ensures var t := Next(s, m);
            && id < |t.rows| && t.rows[id] == s.rows[id] && Sends(t.posts, id) == Sends(s.posts, id)
            && forall j | 0 <= j < |t.processes| :: !Holds(t.processes[j], id)
  {
    hide Sends;
    FinalChannelRowsStay(s, m, id);
    MoveKeeps(s, m);
    ChannelCalls(s, m, id);
    var t := Next(s, m);
    hide Next, Inv;
    forall j | 0 <= j < |t.processes| ensures !Holds(t.processes[j], id) {
      ProcessFact(t, j);
    }
  }

  lemma ChannelCalls(s: System, m: Move, id: nat)
    requires Inv(s) && Rests(s, id) && IsChannel(s.rows[id]) && m.Advance? && m.i < |s.processes|
    ensures Sends(Next(s, m).posts, id) == Sends(s.posts, id)
  {
    hide Inv, Sends, FindKey, Listed, Stuck, Inspect;
    ProcessFact(s, m.i);
    match s.processes[m.i]
    case Claimed(q, claimed) => SendsOfOne(s.posts, Post(claimed, q.MessageKey(), m.answer), id);
    case Ready(ready, _, _) => SendsOfOne(s.posts, Post(ready, s.rows[ready].key, m.answer), id);
    case _ =>
  }

  /** Recovery selects sending rows only. */
  lemma NotSelected(s: System, m: Move, id: nat)
    requires Rests(s, id) && MoveOk(m)
    ensures var t := Next(s, m);
            forall j | 0 <= j < |t.processes| && t.processes[j].Selected? :: id !in t.processes[j].ids
  {
    hide FindKey, Listed, Inspect, Replay;
    var t := Next(s, m);
    if m.Advance? && m.i < |s.processes| {
      SelectedBy(s, m);
    }
  }

  /** Only process `i` moved, and if it selected rows, they are sending. */
  predicate Selects(s: System, t: System, i: nat)
    requires i < |s.processes|
  {
    && |t.processes| == |s.processes|
    && (forall j | 0 <= j < |s.processes| && j != i :: t.processes[j] == s.processes[j])
    && (t.processes[i].Selected? ==> forall x | x in t.processes[i].ids :: x < |s.rows| && s.rows[x].status == Sending)
  }

  lemma SenderSelects(s: System, i: nat, answer: Answer, stored: bool)
    requires i < |s.processes| && IsSender(s.processes[i])
    ensures Selects(s, SenderStep(s, i, answer, stored), i)
  {
    hide FindKey, Inspect, Replay, Finish, Receipt;
  }

  lemma PumpSelects(s: System, i: nat, answer: Answer)
    requires i < |s.processes| && !s.processes[i].Selected?
    ensures Selects(s, PumpStep(s, i, answer), i)
  {
    hide Listed, Take, MarkSending, MarkOutcome, Sendable;
  }

  lemma SelectedBy(s: System, m: Move)
    requires m.Advance? && m.i < |s.processes|
    ensures Selects(s, Next(s, m), m.i)
  {
    hide PumpStep, SenderStep;
    if IsSender(s.processes[m.i]) {
      SenderSelects(s, m.i, m.answer, m.stored);
    } else if !s.processes[m.i].Recovering? && !s.processes[m.i].Selected? {
      PumpSelects(s, m.i, m.answer);
    }
  }

  lemma StepRests(s: System, m: Move, id: nat)
    requires Inv(s) && MoveOk(m) && Rests(s, id)
    ensures Rests(Next(s, m), id) && Next(s, m).rows[id] == s.rows[id]
    ensures Sends(Next(s, m).posts, id) == Sends(s.posts, id)
  {
    hide Inv, Sends, FindKey;
    NotSelected(s, m, id);
    if m.Advance? && m.i < |s.processes| {
      if IsChannel(s.rows[id]) {
        ChannelRests(s, m, id);
      } else {
        GenericRests(s, m, id);
      }
      hide Next;
    }
  }

  /**
   Once a row is final and no process has it in hand, it stays as it is and is not called for, for the rest of the run.
   */
  lemma {:induction false} FinalOnceReleased(run: seq<System>, moves: seq<Move>, k: nat, n: nat, id: nat)
    requires IsRun(run, moves) && k <= n < |run| && id < |run[k].rows| && Final(run[k].rows[id]) && Released(run[k], id)
    ensures id < |run[n].rows| && run[n].rows[id] == run[k].rows[id] && Released(run[n], id)
    ensures Sends(run[n].posts, id) == Sends(run[k].posts, id)
  {
    if k < n {
      hide Inv, Next, MoveOk, Sends, Released;
      FinalOnceReleased(run, moves, k, n - 1, id);
      RunKeeps(run, moves, n - 1);
      assert Moved(run, moves, n - 1);
      StepRests(run[n - 1], moves[n - 1], id);
    }
  }
}
