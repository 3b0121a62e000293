/**
 The pump as separate statements, run with nobody in between, is the pump as one use of the outbox: the concurrent
 model of `Delivery` and the sequential one of `Outbox` describe the same code.
 */
module OutboxSteps {
  import opened Text
  import opened Delivery
  import opened Outbox
  import Retries = OutboxRetries

  /** A step of process `i` alone. */
  function Alone(s: System, i: nat, answer: Answer): System {
    Next(s, Advance(i, answer, true))
  }

  /** Check, count, mark, read again, call, store. */
  function RowAlone(s: System, i: nat, answer: Answer): System {
    Alone(Alone(Alone(Alone(Alone(Alone(s, i, answer), i, answer), i, answer), i, answer), i, answer), i, answer)
  }

  /** How the sequential model names the end of a call. */
  function ReplyOf(answer: Answer): Reply {
    match answer case Returns(text) => Delivers(text) case _ => Raises
  }

  function RepliesOf(answers: seq<Answer>): seq<Reply> {
    seq(|answers|, k requires 0 <= k < |answers| => ReplyOf(answers[k]))
  }

  /** The six steps on a row that can be taken are one attempt, with one call, and the pump goes on behind it. */
  lemma RowAloneIsAttempt(s: System, i: nat, queue: seq<nat>, answer: Answer)
    requires i < |s.processes| && s.processes[i] == Pumping(queue) && queue != []
    requires Retries.Takes(s.rows, queue[0], None)
    ensures RowAlone(s, i, answer) ==
              s.(rows := s.rows[queue[0] := Retries.After(s.rows[queue[0]], ReplyOf(answer))],
                 posts := s.posts + [Post(queue[0], s.rows[queue[0]].key, answer)],
                 processes := s.processes[i := Pumping(queue[1..])])
  {
    var id, rest := queue[0], queue[1..];
    var row := s.rows[id];
    var marked := MarkSending(row, row.attempts);
    var s4 := Become(SetRow(s, id, marked), i, Ready(id, marked.attempts, rest));
    FirstSteps(s, i, queue, answer);
    LastSteps(s, s4, i, id, marked, rest, answer);
    assert MarkOutcome(marked, answer, marked.attempts) == Retries.After(row, ReplyOf(answer));
    hide Alone, MarkSending, MarkOutcome, Retries.After;
  }

  lemma FirstSteps(s: System, i: nat, queue: seq<nat>, answer: Answer)
    requires i < |s.processes| && s.processes[i] == Pumping(queue) && queue != []
    requires Retries.Takes(s.rows, queue[0], None)
    ensures var id, marked := queue[0], MarkSending(s.rows[queue[0]], s.rows[queue[0]].attempts);
            Alone(Alone(Alone(Alone(s, i, answer), i, answer), i, answer), i, answer) ==
              Become(SetRow(s, id, marked), i, Ready(id, marked.attempts, queue[1..]))
  {
    var id, rest := queue[0], queue[1..];
    var row := s.rows[id];
    var s1 := Alone(s, i, answer);
    assert s1 == Become(s, i, Checked(id, rest));
    var s2 := Alone(s1, i, answer);
    assert s2 == Become(s, i, Counted(id, row.attempts, rest));
    hide MarkSending;
    var s3, marked := Alone(s2, i, answer), MarkSending(row, row.attempts);
    assert s3 == Become(SetRow(s, id, marked), i, Marked(id, rest));
  }

  lemma LastSteps(s: System, s4: System, i: nat, id: nat, marked: Row, rest: seq<nat>, answer: Answer)
    requires i < |s.processes| && id < |s.rows|
    requires s4 == Become(SetRow(s, id, marked), i, Ready(id, marked.attempts, rest))
    ensures Alone(Alone(s4, i, answer), i, answer) ==
              s.(rows := s.rows[id := MarkOutcome(marked, answer, marked.attempts)],
                 posts := s.posts + [Post(id, marked.key, answer)],
                 processes := s.processes[i := Pumping(rest)])
  {
    var s5 := Alone(s4, i, answer);
    assert s5 == Become(SetRow(s, id, marked), i, Returned(id, marked.attempts, answer, rest)).(
        posts := s.posts + [Post(id, marked.key, answer)]);
  }

  function QueueAlone(s: System, i: nat, answers: seq<Answer>, n: nat): System
    requires n <= |answers|
  {
    if n == 0 then s else RowAlone(QueueAlone(s, i, answers, n - 1), i, answers[n - 1])
  }

  lemma {:induction false} QueueAloneIsLoop(s: System, i: nat, queue: seq<nat>, answers: seq<Answer>, n: nat, b: Box)
    requires i < |s.processes| && s.processes[i] == Pumping(queue) && Retries.Queued(s.rows, queue)
    requires n <= |queue| == |answers| && b.rows == s.rows
    ensures var t, step := QueueAlone(s, i, answers, n), SendFirst(b, queue, n, None, RepliesOf(answers));
            && step.1 && t.rows == step.0.rows && |t.processes| == |s.processes|
            && t.processes[i] == Pumping(queue[n..])
  {
    hide Send, Retries.Queued, Retries.DoneUpTo, Retries.Pumped, Retries.GetsPast, RowAlone, RepliesOf;
    if n == 0 {
      assert queue[0..] == queue;
    } else {
      var replies := RepliesOf(answers);
      QueueAloneIsLoop(s, i, queue, answers, n - 1, b);
      AllPast(s.rows, queue, n - 1, answers);
      Retries.SendFirstExactly(b, queue, n - 1, None, replies);
      var mid, before := SendFirst(b, queue, n - 1, None, replies).0, QueueAlone(s, i, answers, n - 1);
      Retries.OneMoreDone(b.rows, mid.rows, queue, n - 1, None, replies);
      LoopStep(before, i, queue, n - 1, answers[n - 1], mid);
      ReplyOfAnswer(answers, n - 1);
    }
  }

  lemma ReplyOfAnswer(answers: seq<Answer>, k: nat)
    requires k < |answers|
    ensures ReplyAt(RepliesOf(answers), k) == ReplyOf(answers[k])
  {
  }

  lemma LoopStep(before: System, i: nat, queue: seq<nat>, n: nat, answer: Answer, mid: Box)
    requires i < |before.processes| && n < |queue| && before.processes[i] == Pumping(queue[n..])
    requires before.rows == mid.rows && queue[n] < |mid.rows|
    requires !IsChannel(mid.rows[queue[n]]) && mid.rows[queue[n]].status in {Pending, Failed}
    ensures var t, step := RowAlone(before, i, answer), Send(mid, queue[n], None, ReplyOf(answer));
            && step.1 in {Delivered, NotDelivered} && t.rows == step.0.rows
            && |t.processes| == |before.processes| && t.processes[i] == Pumping(queue[n + 1..])
  {
    assert queue[n..][0] == queue[n] && queue[n..][1..] == queue[n + 1..];
    RowAloneIsAttempt(before, i, queue[n..], answer);
    Retries.SendInQueue(mid, queue[n], mid.rows[queue[n]], None, ReplyOf(answer));
    hide RowAlone, Send, Retries.After;
  }

  lemma AllPast(rows: Table, queue: seq<nat>, n: nat, answers: seq<Answer>)
    requires n <= |queue| == |answers| && Retries.Queued(rows, queue)
    ensures Retries.GetsPast(rows, queue, n, None, RepliesOf(answers))
  {
  }

  /**
   A pump process that lists, sends its whole queue and is never interrupted leaves the table exactly as the sequential
   pump does, whatever each call comes to.
   */
  lemma PumpAloneIsPump(s: System, i: nat, platform: Option<string>, limit: nat, answers: seq<Answer>, any: Answer)
    requires i < |s.processes| && s.processes[i] == Listing(platform, limit)
    requires |answers| == |Take(Waiting(s.rows, platform), limit)|
    ensures var listed := Alone(Alone(s, i, any), i, any);
            QueueAlone(listed, i, answers, |answers|).rows ==
              Apply(Box(s.rows, [], []), Pumps(Call(platform, limit, false, None, RepliesOf(answers)))).rows
  {
    var queue, b := Take(Waiting(s.rows, platform), limit), Box(s.rows, [], []);
    var listed := Alone(Alone(s, i, any), i, any);
    hide Listed;
    assert listed == Become(s, i, Pumping(queue));
    Retries.WaitingIsQueued(s.rows, platform, limit);
    QueueAloneIsLoop(listed, i, queue, answers, |answers|, b);
    hide Alone, QueueAlone, SendFirst, Take, Waiting;
  }

  /** Two steps of a recovery with nobody in between reopen exactly what the sequential recovery does. */
  lemma RecoveryAloneIsRecover(s: System, i: nat, platform: Option<string>, any: Answer)
    requires i < |s.processes| && s.processes[i] == Recovering(platform)
    ensures Alone(Alone(s, i, any), i, any).rows == Apply(Box(s.rows, [], []), Recovers(platform)).rows
  {
    hide Stuck, RecoverAll;
  }
}
