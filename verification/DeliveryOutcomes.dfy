/**
 What becomes of a one-shot message: exactly which row is sent or dead, what its sender is told, and why a row whose
 call had a definite end may still be sending.
 */
module DeliveryOutcomes {
  import opened Text
  import opened Delivery

  /** The process has the row claimed, or holds the answer of its call. */
  predicate HasRow(p: Process) {
    p.Claimed? || p.Posted?
  }

  /** A row belongs to one sender until its outcome is stored or given up, and is sending all that time. */
  predicate OneSender(s: System) {
    && (forall i, j | 0 <= i < j < |s.processes| && HasRow(s.processes[i]) && HasRow(s.processes[j]) ::
          s.processes[i].id != s.processes[j].id)
    && (forall i | 0 <= i < |s.processes| && HasRow(s.processes[i]) ::
          s.processes[i].id < |s.rows| && s.rows[s.processes[i].id].status == Sending)
  }

  /** A step that leaves the rows of the other senders sending, and takes no row of another. */
  lemma StepKeepsOneSender(s: System, next: System, i: nat)
    requires OneSender(s) && i < |s.processes| && |next.processes| == |s.processes|
    requires forall j | 0 <= j < |s.processes| && j != i :: next.processes[j] == s.processes[j]
    requires forall j | 0 <= j < |s.processes| && j != i && HasRow(s.processes[j]) ::
               s.processes[j].id < |next.rows| && next.rows[s.processes[j].id].status == Sending
    requires HasRow(next.processes[i]) ==>
               && next.processes[i].id < |next.rows| && next.rows[next.processes[i].id].status == Sending
               && (if HasRow(s.processes[i]) then next.processes[i].id == s.processes[i].id
                   else next.processes[i].id >= |s.rows|)
    ensures OneSender(next)
  {
  }

  /** The move stores what the call of a channel row came to. */
  predicate Stores(s: System, m: Move, id: nat) {
    m.Advance? && m.stored && m.i < |s.processes| && s.processes[m.i].Posted? && s.processes[m.i].id == id
  }

  lemma PumpLeaves(s: System, i: nat, answer: Answer, id: nat)
    requires Inv(s) && i < |s.processes| && !IsSender(s.processes[i]) && Channel(s, id)
    ensures id < |PumpStep(s, i, answer).rows| && PumpStep(s, i, answer).rows[id] == s.rows[id]
  {
    assert ProcessOk(s.rows, s.posts, s.processes[i]);
    hide Inv, Listed, Sendable, MarkSending, MarkOutcome;
  }

  lemma RecoveryLeaves(s: System, i: nat, id: nat)
    requires Inv(s) && i < |s.processes| && Channel(s, id)
    ensures id < |RecoveryStep(s, i).rows| && RecoveryStep(s, i).rows[id] == s.rows[id]
  {
    assert ProcessOk(s.rows, s.posts, s.processes[i]);
  }

  predicate Channel(s: System, id: nat) {
    id < |s.rows| && IsChannel(s.rows[id])
  }

  /** Nothing but the storing step of its own sender ever changes a channel row. */
  lemma OnlyItsSenderChanges(s: System, m: Move, id: nat)
    requires Inv(s) && MoveOk(m) && Channel(s, id) && !Stores(s, m, id)
    ensures id < |Next(s, m).rows| && Next(s, m).rows[id] == s.rows[id]
  {
    if m.Advance? && m.i < |s.processes| {
      if IsSender(s.processes[m.i]) {
        hide Inv, Finish;
      } else if s.processes[m.i].Recovering? || s.processes[m.i].Selected? {
        RecoveryLeaves(s, m.i, id);
      } else {
        PumpLeaves(s, m.i, m.answer, id);
      }
    }
  }

  /** Only process `i` may change, and to none that has a row. */
  predicate LetsGo(s: System, next: System, i: nat)
    requires i < |s.processes|
  {
    |next.processes| == |s.processes| && !HasRow(next.processes[i])
    && next.processes == s.processes[i := next.processes[i]]
  }

  lemma PumpLetsGo(s: System, i: nat, answer: Answer)
    requires i < |s.processes| && !HasRow(s.processes[i])
    ensures LetsGo(s, PumpStep(s, i, answer), i)
  {
    hide Listed, Sendable, MarkSending, MarkOutcome;
    var next := PumpStep(s, i, answer);
    assert next.processes == s.processes[i := next.processes[i]];
  }

  lemma RecoveryLetsGo(s: System, i: nat)
    requires i < |s.processes| && !HasRow(s.processes[i])
    ensures LetsGo(s, RecoveryStep(s, i), i)
  {
    hide Stuck, RecoverAll;
    var next := RecoveryStep(s, i);
    assert next.processes == s.processes[i := next.processes[i]];
  }

  /** A sender's step: it lets go, keeps the row it has, or takes a new one. */
  lemma SenderTakes(s: System, i: nat, answer: Answer, stored: bool)
    requires Inv(s) && i < |s.processes| && IsSender(s.processes[i])
    ensures var next := SenderStep(s, i, answer, stored);
            || LetsGo(s, next, i)
            || (s.processes[i].Claimed? && next.rows == s.rows
                && next.processes == s.processes[i := Posted(s.processes[i].q, s.processes[i].id, answer)])
            || (s.processes[i].Cleared? && |next.rows| == |s.rows| + 1 && next.rows[|s.rows|].status == Sending
                && next.processes == s.processes[i := Claimed(s.processes[i].q, |s.rows|)])
  {
    hide Inv, Finish, Replay, Receipt, FindKey, Inspect;
    var next := SenderStep(s, i, answer, stored);
    assert next.processes == s.processes[i := next.processes[i]];
  }

  lemma MoveKeepsOneSender(s: System, m: Move)
    requires Inv(s) && OneSender(s) && MoveOk(m)
    ensures OneSender(Next(s, m))
  {
    forall j | 0 <= j < |s.processes| && HasRow(s.processes[j]) && !Stores(s, m, s.processes[j].id)
      ensures s.processes[j].id < |Next(s, m).rows| && Next(s, m).rows[s.processes[j].id].status == Sending
    {
      assert ProcessOk(s.rows, s.posts, s.processes[j]);
      OnlyItsSenderChanges(s, m, s.processes[j].id);
    }
    if m.Advance? && m.i < |s.processes| {
      var next := Next(s, m);
      if IsSender(s.processes[m.i]) {
        SenderTakes(s, m.i, m.answer, m.stored);
      } else if s.processes[m.i].Recovering? || s.processes[m.i].Selected? {
        RecoveryLetsGo(s, m.i);
      } else {
        PumpLetsGo(s, m.i, m.answer);
      }
      hide SenderStep, RecoveryStep, PumpStep, Inv;
      StepKeepsOneSender(s, next, m.i);
    } else {
      hide Inv;
    }
  }

  lemma EmptyHasOneSender()
    ensures Inv(EMPTY) && OneSender(EMPTY)
  {
  }

  lemma {:induction false} RunHasOneSender(run: seq<System>, moves: seq<Move>, n: nat)
    requires IsRun(run, moves) && n < |run|
    ensures Inv(run[n]) && OneSender(run[n])
  {
    hide Inv, Next, MoveOk, OneSender;
    if n == 0 {
      EmptyHasOneSender();
    } else {
      RunKeeps(run, moves, n);
      RunHasOneSender(run, moves, n - 1);
      assert Moved(run, moves, n - 1);
      MoveKeepsOneSender(run[n - 1], moves[n - 1]);
    }
  }

  // ---------------------------------------------------------------- what storing an outcome does

  /** A call's answer that is final: a well-formed message id, or a rejection. */
  predicate Definite(answer: Answer) {
    answer.Rejects? || (answer.Returns? && IsMessageId(answer.text))
  }

  /** What the row of a definite answer becomes. */
  function Settled(row: Row, answer: Answer): Row {
    if answer.Returns? then row.(status := Sent, message := Some(answer.text))
      else row.(status := Dead, message := None)
  }

  lemma StoringStep(s: System, m: Move, id: nat)
    requires Inv(s) && OneSender(s) && Stores(s, m, id)
    ensures id < |s.rows| && IsChannel(s.rows[id]) && s.rows[id].status == Sending
    ensures var p, next := s.processes[m.i], Next(s, m);
            && next.rows == (if Definite(p.answer) then s.rows[id := Settled(s.rows[id], p.answer)] else s.rows)
            && next.posts == s.posts
            && next.processes == s.processes[m.i := Told(p.q, if p.answer.Returns? && IsMessageId(p.answer.text)
                                                              then Some(p.answer.text) else None)]
  {
    assert ProcessOk(s.rows, s.posts, s.processes[m.i]);
    var answer := s.processes[m.i].answer;
    assert answer.Returns? && IsMessageId(answer.text) ==> PREFIX <= answer.text && answer.text != "";
    hide Inv, IsMessageId;
  }

  /**
   In every run: a sender that comes to store its call's outcome, and can, finds its row still sending.  After a
   well-formed id the row is sent with exactly that id and the sender is told it; after a rejection the row is dead;
   after any other end the row stays as it is.
   */
  lemma StoredExactly(run: seq<System>, moves: seq<Move>, n: nat, id: nat)
    requires IsRun(run, moves) && n < |moves| && Stores(run[n], moves[n], id)
    ensures id < |run[n].rows| && run[n].rows[id].status == Sending
    ensures var p, s, next, i := run[n].processes[moves[n].i], run[n], run[n + 1], moves[n].i;
            match p.answer
            case Returns(text) =>
              if IsMessageId(text)
              then next.rows == s.rows[id := s.rows[id].(status := Sent, message := Some(text))]
                && next.processes == s.processes[i := Told(p.q, Some(text))]
              else next.rows == s.rows && next.processes == s.processes[i := Told(p.q, None)]
            case Rejects =>
              next.rows == s.rows[id := s.rows[id].(status := Dead, message := None)]
              && next.processes == s.processes[i := Told(p.q, None)]
            case Unclear => next.rows == s.rows && next.processes == s.processes[i := Told(p.q, None)]
  {
    RunHasOneSender(run, moves, n);
    assert Moved(run, moves, n);
    StoringStep(run[n], moves[n], id);
    hide Next, Inv, IsMessageId;
  }

  // ---------------------------------------------------------------- the row, from the history of its call

  /** An answer for the row was stored before state `n`. */
  ghost predicate WasStored(run: seq<System>, moves: seq<Move>, n: nat, id: nat, answer: Answer)
    requires |run| == |moves| + 1 && n < |run|
  {
    exists k :: 0 <= k < n && StoresAnswer(run[k], moves[k], id, answer)
  }

  predicate StoresAnswer(s: System, m: Move, id: nat, answer: Answer) {
    Stores(s, m, id) && s.processes[m.i].answer == answer
  }

  lemma WasStoredGrows(run: seq<System>, moves: seq<Move>, n: nat, id: nat, answer: Answer)
    requires |run| == |moves| + 1 && n < |moves|
    ensures WasStored(run, moves, n + 1, id, answer) <==>
              WasStored(run, moves, n, id, answer) || StoresAnswer(run[n], moves[n], id, answer)
  {
    if WasStored(run, moves, n, id, answer) {
      var k :| 0 <= k < n && StoresAnswer(run[k], moves[k], id, answer);
      assert 0 <= k < n + 1;
    }
  }

  /** A row that has just come about has no stored answer. */
  lemma NewRowIsUnstored(run: seq<System>, moves: seq<Move>, n: nat, id: nat, answer: Answer)
    requires IsRun(run, moves) && n < |run| && id >= |run[n].rows|
    ensures !WasStored(run, moves, n, id, answer)
  {
    if k :| 0 <= k < n && StoresAnswer(run[k], moves[k], id, answer) {
      StoredExactly(run, moves, k, id);
      RowsGrow(run, moves, k, n);
    }
  }

  lemma {:induction false} RowsGrow(run: seq<System>, moves: seq<Move>, k: nat, n: nat)
    requires IsRun(run, moves) && k <= n < |run|
    ensures |run[k].rows| <= |run[n].rows|
  {
    if k < n {
      RowsGrow(run, moves, k, n - 1);
      assert Moved(run, moves, n - 1);
      hide MoveOk;
    }
  }

  /** Kinds of rows never change, and a new channel row is sending. */
  lemma ChannelBefore(s: System, m: Move, id: nat)
    requires Inv(s) && OneSender(s) && MoveOk(m) && Channel(Next(s, m), id)
    ensures id < |s.rows| ==> IsChannel(s.rows[id])
    ensures id >= |s.rows| ==> Next(s, m).rows[id].status == Sending
  {
    if m.Advance? && m.i < |s.processes| {
      assert ProcessOk(s.rows, s.posts, s.processes[m.i]);
      hide Inv, Listed, Sendable, FindKey, Inspect, Replay;
    }
  }

  /** The row says what was stored for it, and nothing else. */
  ghost predicate TellsOutcome(run: seq<System>, moves: seq<Move>, n: nat, id: nat, row: Row)
    requires |run| == |moves| + 1 && n < |run|
  {
    && row.status in {Sending, Sent, Dead} && (row.status == Sent ==> row.message.Some?)
    && (row.status == Dead <==> WasStored(run, moves, n, id, Rejects))
    && (forall text :: row.status == Sent && row.message == Some(text) <==>
                         IsMessageId(text) && WasStored(run, moves, n, id, Returns(text)))
  }

  /** A step that stores nothing for the row leaves its account as it is. */
  lemma AccountStays(run: seq<System>, moves: seq<Move>, n: nat, id: nat, row: Row)
    requires |run| == |moves| + 1 && n < |moves| && TellsOutcome(run, moves, n, id, row)
    requires !Stores(run[n], moves[n], id)
    ensures TellsOutcome(run, moves, n + 1, id, row)
  {
    hide Stores, WasStored, IsMessageId;
    WasStoredGrows(run, moves, n, id, Rejects);
    forall text ensures WasStored(run, moves, n + 1, id, Returns(text)) <==>
      WasStored(run, moves, n, id, Returns(text)) {
      WasStoredGrows(run, moves, n, id, Returns(text));
    }
  }

  /** A step that stores an answer on a sending row completes it. */
  lemma AccountGrows(run: seq<System>, moves: seq<Move>, n: nat, id: nat, row: Row)
    requires |run| == |moves| + 1 && n < |moves| && TellsOutcome(run, moves, n, id, row) && row.status == Sending
    requires Stores(run[n], moves[n], id)
    ensures var answer := run[n].processes[moves[n].i].answer;
            TellsOutcome(run, moves, n + 1, id, if Definite(answer) then Settled(row, answer) else row)
  {
    hide WasStored, IsMessageId;
    WasStoredGrows(run, moves, n, id, Rejects);
    forall text
      ensures WasStored(run, moves, n + 1, id, Returns(text)) <==>
                WasStored(run, moves, n, id, Returns(text)) || StoresAnswer(run[n], moves[n], id, Returns(text))
    {
      WasStoredGrows(run, moves, n, id, Returns(text));
    }
  }

  lemma NewRowTells(run: seq<System>, moves: seq<Move>, n: nat, id: nat, row: Row)
    requires IsRun(run, moves) && n < |run| && id >= |run[n].rows| && row.status == Sending
    ensures TellsOutcome(run, moves, n, id, row)
  {
    hide WasStored;
    NewRowIsUnstored(run, moves, n, id, Rejects);
    forall text ensures !WasStored(run, moves, n, id, Returns(text)) {
      NewRowIsUnstored(run, moves, n, id, Returns(text));
    }
  }

  /**
   In every run a channel row is sent with a text exactly if its sender stored that text, a well-formed id, as the
   answer of its call; dead exactly if its sender stored a rejection; and otherwise still sending.
   */
  lemma {:induction false} ChannelRowExactly(run: seq<System>, moves: seq<Move>, n: nat, id: nat)
    requires IsRun(run, moves) && n < |run| && Channel(run[n], id)
    ensures TellsOutcome(run, moves, n, id, run[n].rows[id])
  {
    if n > 0 {
      hide Inv, OneSender, Next, Settled, TellsOutcome, MoveOk;
      RunHasOneSender(run, moves, n - 1);
      assert Moved(run, moves, n - 1);
      var s, m := run[n - 1], moves[n - 1];
      ChannelBefore(s, m, id);
      if id >= |s.rows| {
        NewRowTells(run, moves, n - 1, id, run[n].rows[id]);
        assert !Stores(s, m, id) by {
          if Stores(s, m, id) { StoringStep(s, m, id); }
        }
        AccountStays(run, moves, n - 1, id, run[n].rows[id]);
      } else {
        ChannelRowExactly(run, moves, n - 1, id);
        if Stores(s, m, id) {
          StoringStep(s, m, id);
          AccountGrows(run, moves, n - 1, id, s.rows[id]);
        } else {
          OnlyItsSenderChanges(s, m, id);
          AccountStays(run, moves, n - 1, id, s.rows[id]);
        }
      }
    }
  }

  // ---------------------------------------------------------------- why a row may still be sending

  /** The sender that has the row's answer dies, or fails to store it. */
  predicate GivesUp(s: System, m: Move, id: nat) {
    && (m.Crash? || (m.Advance? && !m.stored))
    && m.i < |s.processes| && s.processes[m.i].Posted? && s.processes[m.i].id == id
  }

  ghost predicate WasGivenUp(run: seq<System>, moves: seq<Move>, n: nat, id: nat)
    requires |run| == |moves| + 1 && n < |run|
  {
    exists k :: 0 <= k < n && GivesUp(run[k], moves[k], id)
  }

  /** Some sender still holds the answer of the row's call. */
  predicate IsHeld(s: System, id: nat, answer: Answer) {
    exists i :: 0 <= i < |s.processes| && s.processes[i].Posted? && s.processes[i].id == id
                && s.processes[i].answer == answer
  }

  /** What one step does to a held answer: it stays held, or it is stored or given up. */
  lemma HeldStep(s: System, m: Move, id: nat, answer: Answer)
    requires IsHeld(s, id, answer)
    ensures IsHeld(Next(s, m), id, answer) || StoresAnswer(s, m, id, answer) || GivesUp(s, m, id)
  {
    var i :| 0 <= i < |s.processes| && s.processes[i].Posted? && s.processes[i].id == id
      && s.processes[i].answer == answer;
    var next := Next(s, m);
    if (m.Advance? || m.Crash?) && m.i == i {
      assert m.Advance? && m.stored ==> StoresAnswer(s, m, id, answer);
    } else {
      ProcessKept(s, m, i);
      assert next.processes[i] == s.processes[i];
    }
  }

  lemma SenderStepIsOwn(s: System, i: nat, answer: Answer, stored: bool, j: nat)
    requires i < |s.processes| && j < |s.processes| && j != i
    ensures j < |SenderStep(s, i, answer, stored).processes|
    ensures SenderStep(s, i, answer, stored).processes[j] == s.processes[j]
  {
    hide Finish, Replay, Receipt, FindKey, Inspect, Reserve;
  }

  lemma PumpStepIsOwn(s: System, i: nat, answer: Answer, j: nat)
    requires i < |s.processes| && j < |s.processes| && j != i
    ensures j < |PumpStep(s, i, answer).processes| && PumpStep(s, i, answer).processes[j] == s.processes[j]
  {
    hide Listed, Sendable, MarkSending, MarkOutcome;
  }

  lemma ProcessKept(s: System, m: Move, i: nat)
    requires i < |s.processes| && ((m.Advance? || m.Crash?) ==> m.i != i)
    ensures i < |Next(s, m).processes| && Next(s, m).processes[i] == s.processes[i]
  {
    if m.Advance? && m.i < |s.processes| {
      SenderStepIsOwn(s, m.i, m.answer, m.stored, i);
      PumpStepIsOwn(s, m.i, m.answer, i);
    }
    hide SenderStep, PumpStep;
  }

  /** A call that a step records for a channel row leaves its answer with the sender. */
  lemma NewPostIsHeld(s: System, m: Move, a: nat)
    requires Inv(s) && MoveOk(m) && |s.posts| <= a < |Next(s, m).posts|
    requires Channel(Next(s, m), Next(s, m).posts[a].id)
    ensures IsHeld(Next(s, m), Next(s, m).posts[a].id, Next(s, m).posts[a].answer)
  {
    var next := Next(s, m);
    assert m.Advance? && m.i < |s.processes|;
    assert ProcessOk(s.rows, s.posts, s.processes[m.i]);
    assert !s.processes[m.i].Ready?;
    assert s.processes[m.i].Claimed?;
    assert next.processes[m.i] == Posted(s.processes[m.i].q, s.processes[m.i].id, m.answer);
  }

  lemma PostBefore(s: System, m: Move, a: nat)
    requires Inv(s) && a < |s.posts|
    ensures s.posts[a].id < |s.rows| && a < |Next(s, m).posts| && Next(s, m).posts[a] == s.posts[a]
  {
    hide Finish, Replay, Receipt, FindKey, Inspect, Reserve, Listed, Sendable, MarkSending, MarkOutcome, Stuck;
    hide RecoverAll;
  }

  /** The answer of a call for a channel row is held by its sender, was stored, or was given up. */
  lemma {:induction false} AnswerIsSomewhere(run: seq<System>, moves: seq<Move>, n: nat, a: nat)
    requires IsRun(run, moves) && n < |run| && a < |run[n].posts| && Channel(run[n], run[n].posts[a].id)
    ensures var id, answer := run[n].posts[a].id, run[n].posts[a].answer;
            IsHeld(run[n], id, answer) || WasStored(run, moves, n, id, answer) || WasGivenUp(run, moves, n, id)
  {
    if n > 0 {
      hide Inv, OneSender, Next, MoveOk, IsHeld, Stores, GivesUp;
      RunHasOneSender(run, moves, n - 1);
      assert Moved(run, moves, n - 1);
      var s, m, post := run[n - 1], moves[n - 1], run[n].posts[a];
      if a < |s.posts| {
        PostBefore(s, m, a);
        ChannelBefore(s, m, post.id);
        AnswerIsSomewhere(run, moves, n - 1, a);
        WasStoredGrows(run, moves, n - 1, post.id, post.answer);
        if IsHeld(s, post.id, post.answer) {
          HeldStep(s, m, post.id, post.answer);
          assert GivesUp(s, m, post.id) ==> WasGivenUp(run, moves, n, post.id);
        } else if WasGivenUp(run, moves, n - 1, post.id) {
          var k :| 0 <= k < n - 1 && GivesUp(run[k], moves[k], post.id);
          assert 0 <= k < n && GivesUp(run[k], moves[k], post.id);
        }
      } else {
        NewPostIsHeld(s, m, a);
      }
    }
  }

  /** No sender has the row. */
  predicate Free(s: System, id: nat) {
    forall i | 0 <= i < |s.processes| && HasRow(s.processes[i]) :: s.processes[i].id != id
  }

  lemma FreeStays(s: System, m: Move, id: nat)
    requires Inv(s) && MoveOk(m) && Free(s, id) && id < |s.rows|
    ensures Free(Next(s, m), id)
  {
    hide SenderStep, RecoveryStep, PumpStep;
    if m.Advance? && m.i < |s.processes| {
      if IsSender(s.processes[m.i]) {
        SenderTakes(s, m.i, m.answer, m.stored);
      } else if s.processes[m.i].Recovering? || s.processes[m.i].Selected? {
        RecoveryLetsGo(s, m.i);
      } else {
        PumpLetsGo(s, m.i, m.answer);
      }
    }
  }

  lemma GivingUpFrees(s: System, m: Move, id: nat)
    requires Inv(s) && OneSender(s) && GivesUp(s, m, id)
    ensures Channel(s, id) && s.rows[id].status == Sending
    ensures Next(s, m).rows == s.rows && Free(Next(s, m), id)
  {
    assert ProcessOk(s.rows, s.posts, s.processes[m.i]);
    hide Inv;
  }

  /** A row whose answer was given up is nobody's, and sending, ever after. */
  lemma {:induction false} GivenUpStaysSending(run: seq<System>, moves: seq<Move>, k: nat, n: nat, id: nat)
    requires IsRun(run, moves) && k < n < |run| && GivesUp(run[k], moves[k], id)
    ensures Free(run[n], id) && Channel(run[n], id) && run[n].rows[id].status == Sending
  {
    hide Inv, OneSender, Next, MoveOk, GivesUp, Free;
    RunHasOneSender(run, moves, n - 1);
    assert Moved(run, moves, n - 1);
    if k == n - 1 {
      GivingUpFrees(run[k], moves[k], id);
    } else {
      GivenUpStaysSending(run, moves, k, n - 1, id);
      FreeStays(run[n - 1], moves[n - 1], id);
      FreeIsUnstored(run[n - 1], moves[n - 1], id);
      OnlyItsSenderChanges(run[n - 1], moves[n - 1], id);
    }
  }

  lemma FreeIsUnstored(s: System, m: Move, id: nat)
    requires Free(s, id)
    ensures !Stores(s, m, id)
  {
  }

  lemma HeldIsSending(s: System, id: nat, answer: Answer)
    requires OneSender(s) && IsHeld(s, id, answer)
    ensures id < |s.rows| && s.rows[id].status == Sending
  {
  }

  /**
   A channel row whose call ended definitely, with a well-formed id or a rejection, is still sending exactly if its
   sender still holds the answer, or died with it, or failed to store it.
   */
  lemma StillSendingExactly(run: seq<System>, moves: seq<Move>, n: nat, a: nat)
    requires IsRun(run, moves) && n < |run| && a < |run[n].posts| && Channel(run[n], run[n].posts[a].id)
    requires Definite(run[n].posts[a].answer)
    ensures var id, answer := run[n].posts[a].id, run[n].posts[a].answer;
            run[n].rows[id].status == Sending <==> IsHeld(run[n], id, answer) || WasGivenUp(run, moves, n, id)
  {
    hide Inv, OneSender, WasStored, IsHeld, GivesUp, Channel;
    var id, answer := run[n].posts[a].id, run[n].posts[a].answer;
    RunHasOneSender(run, moves, n);
    AnswerIsSomewhere(run, moves, n, a);
    ChannelRowExactly(run, moves, n, id);
    if IsHeld(run[n], id, answer) {
      HeldIsSending(run[n], id, answer);
    }
    if WasGivenUp(run, moves, n, id) {
      var k :| 0 <= k < n && GivesUp(run[k], moves[k], id);
      GivenUpStaysSending(run, moves, k, n, id);
    }
    if answer.Returns? {
      assert answer == Returns(answer.text);
    }
  }

  // ---------------------------------------------------------------- a whole send, undisturbed

  predicate KeyTaken(rows: Table, key: Key) {
    exists j :: 0 <= j < |rows| && rows[j].key == key
  }

  /** A key whose request is on record has its row. */
  predicate RequestsHaveRows(s: System) {
    forall key | key in s.requested :: KeyTaken(s.rows, key)
  }

  lemma SenderKeepsKeys(s: System, i: nat, answer: Answer, stored: bool, j: nat)
    requires i < |s.processes| && j < |s.rows|
    ensures j < |SenderStep(s, i, answer, stored).rows| && SenderStep(s, i, answer, stored).rows[j].key == s.rows[j].key
  {
    hide Replay, Receipt, FindKey, Inspect;
  }

  lemma PumpKeepsKeys(s: System, i: nat, answer: Answer, j: nat)
    requires i < |s.processes| && j < |s.rows|
    ensures j < |PumpStep(s, i, answer).rows| && PumpStep(s, i, answer).rows[j].key == s.rows[j].key
  {
    hide Listed, Sendable;
  }

  lemma KeysStay(s: System, m: Move, j: nat)
    requires j < |s.rows|
    ensures j < |Next(s, m).rows| && Next(s, m).rows[j].key == s.rows[j].key
  {
    if m.Advance? && m.i < |s.processes| {
      SenderKeepsKeys(s, m.i, m.answer, m.stored, j);
      PumpKeepsKeys(s, m.i, m.answer, j);
    }
    hide SenderStep, PumpStep;
  }

  lemma RequestedAfter(s: System, m: Move, key: Key)
    requires key in Next(s, m).requested && key !in s.requested
    ensures KeyTaken(Next(s, m).rows, key)
  {
    hide Finish, Replay, Receipt, FindKey, Inspect, Listed, Sendable, MarkSending, MarkOutcome, Stuck, RecoverAll;
    var q := s.processes[m.i].q;
    assert key == q.MessageKey() && Next(s, m).rows == s.rows + [ReservedRow(q)];
    assert Next(s, m).rows[|s.rows|].key == key;
  }

  lemma {:induction false} RunRequestsHaveRows(run: seq<System>, moves: seq<Move>, n: nat)
    requires IsRun(run, moves) && n < |run|
    ensures RequestsHaveRows(run[n])
  {
    if n > 0 {
      hide Inv, Next, MoveOk, KeyTaken;
      RunKeeps(run, moves, n - 1);
      assert Moved(run, moves, n - 1);
      RunRequestsHaveRows(run, moves, n - 1);
      var s, m := run[n - 1], moves[n - 1];
      forall key | key in run[n].requested ensures KeyTaken(run[n].rows, key) {
        if key in s.requested {
          TakenStays(s, m, key);
        } else {
          RequestedAfter(s, m, key);
        }
      }
    } else {
      assert run[0].requested == {};
    }
  }

  lemma TakenStays(s: System, m: Move, key: Key)
    requires KeyTaken(s.rows, key)
    ensures KeyTaken(Next(s, m).rows, key)
  {
    hide Next;
    var j :| 0 <= j < |s.rows| && s.rows[j].key == key;
    KeysStay(s, m, j);
  }

  /** A sender that enters and runs to its end with nobody in between; every answer it gets is `answer`. */
  function SendAlone(s: System, q: Request, answer: Answer): System {
    var i := |s.processes|;
    var step := Advance(i, answer, true);
    Next(Next(Next(Next(Next(s, Spawn(Entered(q))), step), step), step), step)
  }

  /** The row of a request whose one call came to this answer. */
  function RowAfterCall(q: Request, answer: Answer): Row {
    var row := Row(q.scope.platform, q.scope.channel, ChannelKey(q.scope, q.sendKey),
                   Some(Content(q.scope, q.text, q.reply, q.identity)), Sending, None, 1);
    match answer
    case Returns(text) => if IsMessageId(text) then row.(status := Sent, message := Some(text)) else row
    case Rejects => row.(status := Dead)
    case Unclear => row
  }

  /**
   From any reachable state, a message under a new key: where the channel is bound to its workspace the adapter is
   called once, and the row and what the sender is told are what that call came to; elsewhere nothing happens.
   */
  lemma NewMessageIsSent(run: seq<System>, moves: seq<Move>, n: nat, q: Request, answer: Answer)
    requires IsRun(run, moves) && n < |run| && !KeyTaken(run[n].rows, q.MessageKey())
    ensures var s, next := run[n], SendAlone(run[n], q, answer);
            var told := if answer.Returns? && IsMessageId(answer.text) then Some(answer.text) else None;
            if (q.scope.platform, q.scope.channel) in s.bindings
               && s.bindings[(q.scope.platform, q.scope.channel)] == q.scope.workspace
            then && next.rows == s.rows + [RowAfterCall(q, answer)]
                 && next.posts == s.posts + [Post(|s.rows|, q.MessageKey(), answer)]
                 && next.processes == s.processes + [Told(q, told)]
            else next.rows == s.rows && next.posts == s.posts && next.processes == s.processes + [Told(q, None)]
  {
    RunRequestsHaveRows(run, moves, n);
    var s, i := run[n], |run[n].processes|;
    var step := Advance(i, answer, true);
    var s1 := Next(s, Spawn(Entered(q)));
    assert s1.processes[i] == Entered(q) && q.MessageKey() !in s.requested;
    assert FindKey(s.rows, q.MessageKey()).None?;
    var s2 := Next(s1, step);
    assert s2 == s1.(processes := s.processes + [Cleared(q)]);
    var s3 := Next(s2, step);
    if MayUse(s.bindings, q.scope) {
      assert s3.rows == s.rows + [ReservedRow(q)] && s3.processes == s.processes + [Claimed(q, |s.rows|)];
      var s4 := Next(s3, step);
      assert s4.processes == s.processes + [Posted(q, |s.rows|, answer)];
      var s5 := Next(s4, step);
      assert s5.rows == s.rows + [RowAfterCall(q, answer)];
    } else {
      assert s3 == s1.(processes := s.processes + [Told(q, None)]);
    }
  }

  /** The same key again, at any time: no row and no call, and what the sender is told is what the row tells by then. */
  lemma RepeatedMessageIsReplayed(run: seq<System>, moves: seq<Move>, n: nat, q: Request, answer: Answer, id: nat)
    requires IsRun(run, moves) && n < |run| && id < |run[n].rows| && run[n].rows[id].key == q.MessageKey()
    ensures var s := run[n]; var next := Next(Next(s, Spawn(Entered(q))), Advance(|s.processes|, answer, true));
            var bound := (q.scope.platform, q.scope.channel) in s.bindings
                         && s.bindings[(q.scope.platform, q.scope.channel)] == q.scope.workspace;
            && next.rows == s.rows && next.posts == s.posts
            && next.processes == s.processes + [Told(q, if bound && s.rows[id].status == Sent
                                                          && s.rows[id].message.GetOr("") != ""
                                                        then s.rows[id].message else None)]
  {
    RunKeeps(run, moves, n);
    var s, i := run[n], |run[n].processes|;
    var s1 := Next(s, Spawn(Entered(q)));
    assert s1.processes[i] == Entered(q);
    var prior := FindKey(s.rows, q.MessageKey());
    assert prior == Some(id);
    hide Inv, FindKey;
    assert Next(s1, Advance(i, answer, true)) ==
      s1.(processes := s.processes + [Told(q, Replay(s.rows, s.bindings, q))]);
  }

  /**
   The inspection before a reservation, in every reachable state: forbidden exactly where the channel is not bound to
   the workspace; else a free key has no prior, the same message to the same place has its row, and any other is a
   conflict.
   */
  lemma InspectedExactly(run: seq<System>, moves: seq<Move>, n: nat, q: Request)
    requires IsRun(run, moves) && n < |run|
    ensures var s, r := run[n], Inspect(run[n].rows, run[n].bindings, q);
            var bound := (q.scope.platform, q.scope.channel) in s.bindings
                         && s.bindings[(q.scope.platform, q.scope.channel)] == q.scope.workspace;
            && (r == Err(Forbidden) <==> !bound)
            && (r == Ok(None) <==> bound && !KeyTaken(s.rows, ChannelKey(q.scope, q.sendKey)))
            && (forall id: nat | id < |s.rows| && s.rows[id].key == ChannelKey(q.scope, q.sendKey) ::
                  r == Ok(Some(id)) <==>
                    && bound && s.rows[id].platform == q.scope.platform && s.rows[id].destination == q.scope.channel
                    && s.rows[id].content == Some(Content(q.scope, q.text, q.reply, q.identity)))
  {
    RunKeeps(run, moves, n);
    var prior := FindKey(run[n].rows, q.MessageKey());
    hide FindKey;
  }
}
