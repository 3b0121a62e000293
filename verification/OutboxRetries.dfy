/**
 The retries of the generic outbox: what one attempt leaves, which rows a pump sends and what each becomes, and that a
 row is retried up to the attempt limit and not beyond.
 */
module OutboxRetries {
  import opened Text
  import opened Delivery
  import opened Outbox

  /** The row is a generic one that waits to be sent, and the caller has an adapter for it. */
  predicate Takes(rows: Table, id: nat, adapters: Adapters) {
    && id < |rows| && !IsChannel(rows[id]) && rows[id].status in {Pending, Failed}
    && (adapters.None? || rows[id].platform in adapters.value)
  }

  /** What one more attempt with this reply makes of a row. */
  function After(row: Row, reply: Reply): Row {
    var n := row.attempts + 1;
    match reply
    case Delivers(text) => row.(status := Sent, message := Some(text), attempts := n)
    case Raises => row.(status := if n < MAX_ATTEMPTS then Failed else Dead, attempts := n)
    case DiesBefore => row.(status := Sending, attempts := n)
    case DiesAfter => row.(status := Sending, attempts := n)
  }

  /** One direct send: a row that can be taken gets one attempt and one call, any other is left alone. */
  lemma AttemptExactly(b: Box, id: nat, adapters: Adapters, reply: Reply)
    ensures Apply(b, Sends(id, adapters, reply)) ==
              if !Takes(b.rows, id, adapters) then b
              else Box(b.rows[id := After(b.rows[id], reply)], if reply.DiesBefore? then b.sends else b.sends + [id],
                       b.recovered)
  {
  }

  // ---------------------------------------------------------------- which rows wait

  lemma {:induction false} ListedExactly(rows: Table, status: Status, platform: Option<string>, id: nat)
    ensures id in Listed(rows, status, platform) <==>
              id < |rows| && rows[id].status == status && InScope(rows[id], platform)
  {
    if rows != [] {
      ListedExactly(rows[..|rows| - 1], status, platform, id);
    }
  }

  /** A row waits in a scope exactly if it is generic, in the scope, and pending or failed. */
  lemma WaitingExactly(rows: Table, platform: Option<string>, id: nat)
    ensures id in Waiting(rows, platform) <==>
              id < |rows| && rows[id].status in {Pending, Failed} && InScope(rows[id], platform)
  {
    ListedExactly(rows, Pending, platform, id);
    ListedExactly(rows, Failed, platform, id);
  }

  /** After a raise the row is failed and waits for the next pump of its scope, or dead, exactly by its attempts. */
  lemma RaiseIsRetried(b: Box, id: nat, adapters: Adapters, platform: Option<string>)
    requires Takes(b.rows, id, adapters) && InScope(b.rows[id], platform)
    ensures var next := Apply(b, Sends(id, adapters, Raises));
            && next.rows[id].attempts == b.rows[id].attempts + 1
            && (id in Waiting(next.rows, platform) <==> b.rows[id].attempts + 1 < MAX_ATTEMPTS)
            && next.rows[id].status == if b.rows[id].attempts + 1 < MAX_ATTEMPTS then Failed else Dead
  {
    AttemptExactly(b, id, adapters, Raises);
    WaitingExactly(Apply(b, Sends(id, adapters, Raises)).rows, platform, id);
  }

  // ---------------------------------------------------------------- dead means spent

  predicate RowSpent(row: Row) {
    && (!IsChannel(row) && row.status == Dead ==> row.attempts >= MAX_ATTEMPTS)
    && (!IsChannel(row) && row.status == Failed ==> 0 < row.attempts < MAX_ATTEMPTS)
    && (!IsChannel(row) && row.status == Sent ==> row.attempts > 0 && row.message.Some?)
  }

  predicate RowsSpent(rows: Table) {
    forall id | 0 <= id < |rows| :: RowSpent(rows[id])
  }

  lemma SendSpent(b: Box, id: nat, adapters: Adapters, reply: Reply)
    requires RowsSpent(b.rows)
    ensures RowsSpent(Send(b, id, adapters, reply).0.rows)
  {
    AttemptExactly(b, id, adapters, reply);
    assert Apply(b, Sends(id, adapters, reply)) == Send(b, id, adapters, reply).0;
    hide Send;
  }

  lemma {:induction false} SendFirstSpent(b: Box, queue: seq<nat>, n: nat, adapters: Adapters, replies: seq<Reply>)
    requires RowsSpent(b.rows) && n <= |queue|
    ensures RowsSpent(SendFirst(b, queue, n, adapters, replies).0.rows)
  {
    if n > 0 {
      hide RowsSpent, Send;
      SendFirstSpent(b, queue, n - 1, adapters, replies);
      SendSpent(SendFirst(b, queue, n - 1, adapters, replies).0, queue[n - 1], adapters, ReplyAt(replies, n - 1));
    }
  }

  lemma ApplySpent(b: Box, u: Use)
    requires RowsSpent(b.rows)
    ensures RowsSpent(Apply(b, u).rows)
  {
    match u
    case Pumps(c) =>
      var start := if c.recover then Recover(b, c.platform) else b;
      var queue := Take(Waiting(start.rows, c.platform), c.limit);
      SendFirstSpent(start, queue, |queue|, c.adapters, c.replies);
    case Sends(id, adapters, reply) => SendSpent(b, id, adapters, reply);
    case Recovers(_) =>
    case Enqueues(_) =>
  }

  lemma {:induction false} AllSpent(uses: seq<Use>)
    ensures RowsSpent(ApplyAll(uses).rows)
  {
    if uses != [] {
      hide RowsSpent, Apply;
      AllSpent(uses[..|uses| - 1]);
      ApplySpent(ApplyAll(uses[..|uses| - 1]), uses[|uses| - 1]);
    }
  }

  /** Over any uses: a generic row is given up only once it used every attempt, and failed only while some are left. */
  lemma DeadMeansSpent(uses: seq<Use>, id: nat)
    requires id < |ApplyAll(uses).rows| && !IsChannel(ApplyAll(uses).rows[id])
    ensures var row := ApplyAll(uses).rows[id];
            && (row.status == Dead ==> row.attempts >= MAX_ATTEMPTS)
            && (row.status == Failed ==> 0 < row.attempts < MAX_ATTEMPTS)
            && (row.status == Sent ==> row.attempts > 0 && row.message.Some?)
  {
    AllSpent(uses);
    assert RowSpent(ApplyAll(uses).rows[id]);
  }

  // ---------------------------------------------------------------- what a pump leaves

  predicate NoRepeats(ids: seq<nat>) {
    forall i, j | 0 <= i < j < |ids| :: ids[i] != ids[j]
  }

  lemma {:induction false} ListedIsOrdered(rows: Table, status: Status, platform: Option<string>)
    ensures NoRepeats(Listed(rows, status, platform))
  {
    if rows != [] {
      ListedIsOrdered(rows[..|rows| - 1], status, platform);
    }
  }

  /** The queue of a pump: distinct rows that wait. */
  predicate Queued(rows: Table, queue: seq<nat>) {
    NoRepeats(queue) && forall k | 0 <= k < |queue| ::
      queue[k] < |rows| && !IsChannel(rows[queue[k]]) && rows[queue[k]].status in {Pending, Failed}
  }

  lemma WaitingIsQueued(rows: Table, platform: Option<string>, limit: nat)
    ensures Queued(rows, Take(Waiting(rows, platform), limit))
  {
    ListedIsOrdered(rows, Pending, platform);
    ListedIsOrdered(rows, Failed, platform);
  }

  /** The pump gets past the first `n` rows: each has an adapter, and the process lives through each call. */
  predicate GetsPast(rows: Table, queue: seq<nat>, n: nat, adapters: Adapters, replies: seq<Reply>)
    requires n <= |queue| && Queued(rows, queue)
  {
    forall j | 0 <= j < n ::
      (adapters.None? || rows[queue[j]].platform in adapters.value)
      && j < |replies| && (replies[j].Delivers? || replies[j].Raises?)
  }

  /** What the pump makes of the row at position `k`: one attempt if it gets there and has an adapter for it. */
  function Pumped(rows: Table, queue: seq<nat>, k: nat, adapters: Adapters, replies: seq<Reply>): Row
    requires k < |queue| && Queued(rows, queue)
  {
    var row := rows[queue[k]];
    if GetsPast(rows, queue, k, adapters, replies) && (adapters.None? || row.platform in adapters.value)
    then After(row, ReplyAt(replies, k))
    else row
  }

  /** After `n` rows of the queue: those are as the pump makes them, all others as they were. */
  predicate DoneUpTo(rows: Table, next: Table, queue: seq<nat>, n: nat, adapters: Adapters, replies: seq<Reply>)
    requires n <= |queue| && Queued(rows, queue)
  {
    && |next| == |rows|
    && (forall k | 0 <= k < n :: next[queue[k]] == Pumped(rows, queue, k, adapters, replies))
    && (forall id | 0 <= id < |rows| && id !in queue[..n] :: next[id] == rows[id])
  }

  lemma OneMoreDone(rows: Table, next: Table, queue: seq<nat>, n: nat, adapters: Adapters, replies: seq<Reply>)
    requires n < |queue| && Queued(rows, queue) && DoneUpTo(rows, next, queue, n, adapters, replies)
    ensures |next| == |rows| && queue[n] < |rows| && next[queue[n]] == rows[queue[n]]
    ensures !IsChannel(rows[queue[n]]) && rows[queue[n]].status in {Pending, Failed}
    ensures DoneUpTo(rows, next[queue[n] := Pumped(rows, queue, n, adapters, replies)], queue, n + 1, adapters, replies)
  {
    hide Pumped;
    assert queue[..n + 1] == queue[..n] + [queue[n]];
    assert queue[n] !in queue[..n];
  }

  lemma {:induction false} SendFirstExactly(b: Box, queue: seq<nat>, n: nat, adapters: Adapters, replies: seq<Reply>)
    requires n <= |queue| && Queued(b.rows, queue)
    ensures var step := SendFirst(b, queue, n, adapters, replies);
            && (step.1 <==> GetsPast(b.rows, queue, n, adapters, replies))
            && DoneUpTo(b.rows, step.0.rows, queue, n, adapters, replies)
  {
    if n > 0 {
      SendFirstExactly(b, queue, n - 1, adapters, replies);
      var mid, id := SendFirst(b, queue, n - 1, adapters, replies), queue[n - 1];
      OneMoreDone(b.rows, mid.0.rows, queue, n - 1, adapters, replies);
      PastOneMore(b.rows, queue, n - 1, adapters, replies);
      hide Send, After, DoneUpTo, GetsPast, Queued;
      SendInQueue(mid.0, id, b.rows[id], adapters, ReplyAt(replies, n - 1));
    }
  }

  lemma PastOneMore(rows: Table, queue: seq<nat>, n: nat, adapters: Adapters, replies: seq<Reply>)
    requires n < |queue| && Queued(rows, queue)
    ensures GetsPast(rows, queue, n + 1, adapters, replies) <==>
              && GetsPast(rows, queue, n, adapters, replies)
              && (adapters.None? || rows[queue[n]].platform in adapters.value)
              && (ReplyAt(replies, n).Delivers? || ReplyAt(replies, n).Raises?)
  {
  }

  lemma SendInQueue(b: Box, id: nat, row: Row, adapters: Adapters, reply: Reply)
    requires id < |b.rows| && b.rows[id] == row && !IsChannel(row) && row.status in {Pending, Failed}
    ensures var step := Send(b, id, adapters, reply); var routed := adapters.None? || row.platform in adapters.value;
            && step.0.rows == (if routed then b.rows[id := After(row, reply)] else b.rows)
            && (step.1 in {Delivered, NotDelivered} <==> routed && (reply.Delivers? || reply.Raises?))
  {
    AttemptExactly(b, id, adapters, reply);
    OutcomeExactly(b, id, adapters, reply);
    hide Send;
  }

  lemma OutcomeExactly(b: Box, id: nat, adapters: Adapters, reply: Reply)
    ensures Send(b, id, adapters, reply).0 == Apply(b, Sends(id, adapters, reply))
    ensures Send(b, id, adapters, reply).1 in {Delivered, NotDelivered} <==>
              Takes(b.rows, id, adapters) && (reply.Delivers? || reply.Raises?)
  {
  }

  /** The table a pump starts from: sending rows of its scope are pending again if it recovers first. */
  function Opened(rows: Table, c: Call): Table {
    seq(|rows|, i requires 0 <= i < |rows| =>
      if c.recover && rows[i].status == Sending && !IsChannel(rows[i]) && Matches(rows[i], c.platform)
      then rows[i].(status := Pending) else rows[i])
  }

  lemma {:induction false} StuckExactly(rows: Table, platform: Option<string>, id: nat)
    ensures id in Stuck(rows, platform) <==>
              id < |rows| && rows[id].status == Sending && !IsChannel(rows[id]) && Matches(rows[id], platform)
  {
    if rows != [] {
      StuckExactly(rows[..|rows| - 1], platform, id);
    }
  }

  lemma OpenedExactly(b: Box, c: Call)
    ensures (if c.recover then Recover(b, c.platform) else b).rows == Opened(b.rows, c)
  {
    forall id: nat | id < |b.rows|
      ensures id in Stuck(b.rows, c.platform) <==>
                b.rows[id].status == Sending && !IsChannel(b.rows[id]) && Matches(b.rows[id], c.platform)
    {
      StuckExactly(b.rows, c.platform, id);
    }
    hide Stuck, Matches;
  }

  /**
   A pump makes one attempt on each row of its queue in order, the rows waiting in its scope up to its limit, as long as
   rows have adapters and the process lives, and leaves every other row as it was once the stuck ones are reopened.
   */
  lemma PumpExactly(b: Box, c: Call)
    ensures var rows, next := Opened(b.rows, c), Apply(b, Pumps(c)).rows;
            var queue := Take(Waiting(rows, c.platform), c.limit);
            && Queued(rows, queue) && |next| == |rows|
            && (forall k | 0 <= k < |queue| :: next[queue[k]] == Pumped(rows, queue, k, c.adapters, c.replies))
            && (forall id | 0 <= id < |rows| && id !in queue :: next[id] == rows[id])
  {
    OpenedExactly(b, c);
    var start := if c.recover then Recover(b, c.platform) else b;
    var queue := Take(Waiting(start.rows, c.platform), c.limit);
    WaitingIsQueued(start.rows, c.platform, c.limit);
    SendFirstExactly(start, queue, |queue|, c.adapters, c.replies);
    assert queue[..|queue|] == queue;
    hide Opened, Waiting, Take, Recover, SendFirst, Pumped, Queued;
  }

  // ---------------------------------------------------------------- retries over a run of uses

  /** The pump gets to the row at position `k`, has an adapter for it, and gets this reply. */
  predicate Reaches(rows: Table, queue: seq<nat>, c: Call, k: nat, reply: Reply) {
    && Queued(rows, queue) && k < |queue| && GetsPast(rows, queue, k, c.adapters, c.replies)
    && (c.adapters.None? || rows[queue[k]].platform in c.adapters.value) && ReplyAt(c.replies, k) == reply
  }

  /** The use makes an attempt on the row and the world answers it so. */
  predicate Tries(b: Box, u: Use, id: nat, reply: Reply) {
    match u
    case Sends(x, adapters, given) => x == id && given == reply && Takes(b.rows, id, adapters)
    case Pumps(c) =>
      var rows := Opened(b.rows, c);
      var queue := Take(Waiting(rows, c.platform), c.limit);
      exists k :: 0 <= k < |queue| && queue[k] == id && Reaches(rows, queue, c, k, reply)
    case _ => false
  }

  lemma TriesExactly(b: Box, u: Use, id: nat, reply: Reply)
    requires id < |b.rows| && b.rows[id].status != Sending && Tries(b, u, id, reply)
    ensures !IsChannel(b.rows[id]) && b.rows[id].status in {Pending, Failed}
    ensures id < |Apply(b, u).rows| && Apply(b, u).rows[id] == After(b.rows[id], reply)
  {
    match u
    case Sends(_, adapters, _) => AttemptExactly(b, id, adapters, reply);
    case Pumps(c) =>
      PumpExactly(b, c);
      var rows := Opened(b.rows, c);
      var queue := Take(Waiting(rows, c.platform), c.limit);
      var k :| 0 <= k < |queue| && queue[k] == id && Reaches(rows, queue, c, k, reply);
      assert Apply(b, u).rows[queue[k]] == Pumped(rows, queue, k, c.adapters, c.replies);
      hide Apply, Waiting, Take, After;
    case _ =>
  }

  function TableAt(uses: seq<Use>, n: nat): Table
    requires n <= |uses|
  {
    ApplyAll(uses[..n]).rows
  }

  /** The use at `n` tries the row and its adapter raises. */
  predicate RaisesAt(uses: seq<Use>, n: nat, id: nat)
    requires n < |uses|
  {
    Tries(ApplyAll(uses[..n]), uses[n], id, Raises)
  }

  predicate LeavesAt(uses: seq<Use>, n: nat, id: nat)
    requires n < |uses|
  {
    id < |TableAt(uses, n)| && id < |TableAt(uses, n + 1)| && TableAt(uses, n + 1)[id] == TableAt(uses, n)[id]
  }

  function Raised(uses: seq<Use>, m: nat, n: nat, id: nat): nat
    requires m <= n <= |uses|
  {
    if m == n then 0 else Raised(uses, m, n - 1, id) + if RaisesAt(uses, n - 1, id) then 1 else 0
  }

  lemma AppliedAt(uses: seq<Use>, n: nat)
    requires n < |uses|
    ensures ApplyAll(uses[..n + 1]) == Apply(ApplyAll(uses[..n]), uses[n])
  {
    assert uses[..n + 1][..n] == uses[..n];
  }

  /** What `k` raises make of a new row. */
  function AfterRaises(row: Row, k: nat): Row {
    row.(attempts := k, status := if k == 0 then Pending else if k < MAX_ATTEMPTS then Failed else Dead)
  }

  predicate IsNew(row: Row) {
    !IsChannel(row) && row.status == Pending && row.attempts == 0
  }

  lemma NoRaisesYet(row: Row)
    requires IsNew(row)
    ensures AfterRaises(row, 0) == row
  {
  }

  lemma LeftAlone(uses: seq<Use>, n: nat, id: nat)
    requires n < |uses| && id < |TableAt(uses, n)|
    ensures LeavesAt(uses, n, id) ==> id < |TableAt(uses, n + 1)| && TableAt(uses, n + 1)[id] == TableAt(uses, n)[id]
    ensures RaisesAt(uses, n, id) ==> Tries(ApplyAll(uses[..n]), uses[n], id, Raises)
  {
  }

  lemma OneRaiseMore(uses: seq<Use>, n: nat, id: nat, row: Row, k: nat, reply: Reply)
    requires n < |uses| && id < |TableAt(uses, n)| && TableAt(uses, n)[id] == AfterRaises(row, k)
    requires Tries(ApplyAll(uses[..n]), uses[n], id, reply)
    ensures k < MAX_ATTEMPTS && id < |TableAt(uses, n + 1)|
    ensures TableAt(uses, n + 1)[id] == After(AfterRaises(row, k), reply)
    ensures After(AfterRaises(row, k), Raises) == AfterRaises(row, k + 1)
  {
    AppliedAt(uses, n);
    TriesExactly(ApplyAll(uses[..n]), uses[n], id, reply);
    hide ApplyAll, Apply, Tries;
  }

  /**
   A new row whose every attempt so far raised, by direct sends or by pumps, with any other uses in between: it has had
   exactly that many attempts, it is failed while they are fewer than the limit, and dead from the last one on.
   */
  lemma {:induction false} RetriedExactly(uses: seq<Use>, m: nat, n: nat, id: nat)
    requires m <= n <= |uses| && id < |TableAt(uses, m)| && IsNew(TableAt(uses, m)[id])
    requires forall j | m <= j < n :: RaisesAt(uses, j, id) || LeavesAt(uses, j, id)
    ensures id < |TableAt(uses, n)| && Raised(uses, m, n, id) <= MAX_ATTEMPTS
    ensures TableAt(uses, n)[id] == AfterRaises(TableAt(uses, m)[id], Raised(uses, m, n, id))
  {
    hide ApplyAll, Apply, Tries, TableAt, AfterRaises, After, IsNew, RaisesAt, LeavesAt;
    if m == n {
      NoRaisesYet(TableAt(uses, m)[id]);
    } else {
      RetriedExactly(uses, m, n - 1, id);
      LeftAlone(uses, n - 1, id);
      if RaisesAt(uses, n - 1, id) {
        OneRaiseMore(uses, n - 1, id, TableAt(uses, m)[id], Raised(uses, m, n - 1, id), Raises);
      }
    }
  }

  /**
   If the adapter then delivers, which it is asked to only while fewer attempts than the limit raised, the row is sent
   with what was returned, after one attempt more.
   */
  lemma RetriedThenSent(uses: seq<Use>, m: nat, n: nat, id: nat, text: string)
    requires m <= n < |uses| && id < |TableAt(uses, m)| && IsNew(TableAt(uses, m)[id])
    requires forall j | m <= j < n :: RaisesAt(uses, j, id) || LeavesAt(uses, j, id)
    requires Tries(ApplyAll(uses[..n]), uses[n], id, Delivers(text))
    ensures Raised(uses, m, n, id) < MAX_ATTEMPTS && id < |TableAt(uses, n + 1)|
    ensures TableAt(uses, n + 1)[id] == TableAt(uses, m)[id].(
              status := Sent, message := Some(text), attempts := Raised(uses, m, n, id) + 1)
  {
    RetriedExactly(uses, m, n, id);
    hide Tries, TableAt, RaisesAt, LeavesAt;
    OneRaiseMore(uses, n, id, TableAt(uses, m)[id], Raised(uses, m, n, id), Delivers(text));
  }
}
