/**
 The generic outbox when pumps and recovery passes do not overlap; a pump may still die at any adapter call.

 `Box` is the table with two histories beside it: the rows an adapter was called for, and the rows recovery reopened.
 */
module Outbox {
  import opened Text
  import opened Delivery

  datatype Box = Box(rows: Table, sends: seq<nat>, recovered: seq<nat>)

  /** What the world does at one adapter call: it returns an id, raises, or the process dies before or after it. */
  datatype Reply = Delivers(text: string) | Raises | DiesBefore | DiesAfter

  /** The platforms an adapter can be had for; None when the caller passes one adapter for all. */
  type Adapters = Option<set<string>>

  predicate Routable(adapters: Adapters, row: Row) {
    adapters.None? || row.platform in adapters.value
  }

  datatype Outcome = Delivered | NotDelivered | Died | Raised(error: SendError)

  datatype SendError = Unknown | OneShot | NotSendable | NoAdapter

  // ---------------------------------------------------------------- specification

  /** `send_delivery`. */
  function Send(b: Box, id: nat, adapters: Adapters, reply: Reply): (Box, Outcome) {
    if id >= |b.rows| then (b, Raised(Unknown))
    else if IsChannel(b.rows[id]) then (b, Raised(OneShot))
    else if !Sendable(b.rows[id]) then (b, Raised(NotSendable))
    else if !Routable(adapters, b.rows[id]) then (b, Raised(NoAdapter))
    else
      var sending := MarkSending(b.rows[id], b.rows[id].attempts);
      var marked := b.(rows := b.rows[id := sending]);
      match reply
      case DiesBefore => (marked, Died)
      case DiesAfter => (marked.(sends := b.sends + [id]), Died)
      case Delivers(text) =>
        (Box(b.rows[id := MarkOutcome(sending, Returns(text), sending.attempts)], b.sends + [id], b.recovered),
         Delivered)
      case Raises => (Box(b.rows[id := MarkOutcome(sending, Unclear, sending.attempts)], b.sends + [id], b.recovered),
                      NotDelivered)
  }

  function ReplyAt(replies: seq<Reply>, k: nat): Reply {
    if k < |replies| then replies[k] else DiesBefore
  }

  function Waiting(rows: Table, platform: Option<string>): seq<nat> {
    Listed(rows, Pending, platform) + Listed(rows, Failed, platform)
  }

  /** The pump's loop after `n` rows of its queue; it goes on while the rows come to sent or not sent. */
  function SendFirst(b: Box, queue: seq<nat>, n: nat, adapters: Adapters, replies: seq<Reply>): (Box, bool)
    requires n <= |queue|
  {
    if n == 0 then (b, true) else
      var earlier := SendFirst(b, queue, n - 1, adapters, replies);
      if !earlier.1 then earlier else
        var step := Send(earlier.0, queue[n - 1], adapters, ReplyAt(replies, n - 1));
        (step.0, step.1 in {Delivered, NotDelivered})
  }

  function Recover(b: Box, platform: Option<string>): Box {
    var ids := Stuck(b.rows, platform);
    b.(rows := RecoverAll(b.rows, ids), recovered := b.recovered + ids)
  }

  datatype Call = Call(platform: Option<string>, limit: nat, recover: bool, adapters: Adapters, replies: seq<Reply>)

  function Pump(b: Box, c: Call): Box {
    var start := if c.recover then Recover(b, c.platform) else b;
    var queue := Take(Waiting(start.rows, c.platform), c.limit);
    SendFirst(start, queue, |queue|, c.adapters, c.replies).0
  }

  // ---------------------------------------------------------------- the outbox object

  class Store {
    var rows: Table
    var sends: seq<nat>
    var recovered: seq<nat>

    function Contents(): Box
      reads this
    {
      Box(rows, sends, recovered)
    }

    constructor ()
      ensures Contents() == Box([], [], [])
    {
      rows, sends, recovered := [], [], [];
    }

    method SendDelivery(id: nat, adapters: Adapters, reply: Reply) returns (outcome: Outcome)
      modifies this
      ensures (Contents(), outcome) == Send(old(Contents()), id, adapters, reply)
    {
      if id >= |rows| {
        return Raised(Unknown);
      }
      var delivery := rows[id];
      if IsChannel(delivery) {
        return Raised(OneShot);
      }
      if !Sendable(delivery) {
        return Raised(NotSendable);
      }
      if !Routable(adapters, delivery) {
        return Raised(NoAdapter);
      }
      rows := rows[id := delivery.(status := Sending, attempts := delivery.attempts + 1)];
      var sending := rows[id];
      if reply.DiesBefore? {
        return Died;
      }
      sends := sends + [id];
      if reply.DiesAfter? {
        return Died;
      }
      if reply.Raises? {
        var dead := sending.attempts >= MAX_ATTEMPTS;
        rows := rows[id := sending.(status := if dead then Dead else Failed)];
        assert rows == old(rows)[id := MarkOutcome(sending, Unclear, sending.attempts)];
        return NotDelivered;
      }
      rows := rows[id := sending.(status := Sent, message := Some(reply.text))];
      assert rows == old(rows)[id := MarkOutcome(sending, Returns(reply.text), sending.attempts)];
      return Delivered;
    }

    method List(status: Status, platform: Option<string>) returns (ids: seq<nat>)
      ensures ids == Listed(rows, status, platform)
    {
      ids := [];
      for n := 0 to |rows|
        invariant ids == Listed(rows[..n], status, platform)
      {
        assert rows[..n + 1][..n] == rows[..n];
        if rows[n].status == status && InScope(rows[n], platform) {
          ids := ids + [n];
        }
      }
      assert rows[..|rows|] == rows;
    }

    method SelectStuck(platform: Option<string>) returns (ids: seq<nat>)
      ensures ids == Stuck(rows, platform)
    {
      ids := [];
      for n := 0 to |rows|
        invariant ids == Stuck(rows[..n], platform)
      {
        assert rows[..n + 1][..n] == rows[..n];
        if rows[n].status == Sending && Matches(rows[n], platform) && !IsChannel(rows[n]) {
          ids := ids + [n];
        }
      }
      assert rows[..|rows|] == rows;
    }

    method RecoverSending(platform: Option<string>)
      modifies this
      ensures Contents() == Recover(old(Contents()), platform)
    {
      var ids := SelectStuck(platform);
      for k := 0 to |ids|
        invariant rows == RecoverAll(old(rows), ids[..k]) && sends == old(sends) && recovered == old(recovered)
      {
        assert ids[..k + 1][..k] == ids[..k];
        rows := rows[ids[k] := rows[ids[k]].(status := Pending)];
      }
      assert ids[..|ids|] == ids;
      recovered := recovered + ids;
    }

    /** The pump's loop; it ends early when a send raises or the process dies. */
    method SendQueue(queue: seq<nat>, adapters: Adapters, replies: seq<Reply>)
      returns (whole: bool, sent: nat, failed: nat)
      modifies this
      ensures (Contents(), whole) == SendFirst(old(Contents()), queue, |queue|, adapters, replies)
      ensures whole ==> sent + failed == |queue|
    {
      sent, failed, whole := 0, 0, true;
      var n := 0;
      while n < |queue|
        invariant n <= |queue| && SendFirst(old(Contents()), queue, n, adapters, replies) == (Contents(), true)
        invariant whole && sent + failed == n
      {
        var outcome := SendDelivery(queue[n], adapters, ReplyAt(replies, n));
        n := n + 1;
        if outcome == Delivered {
          sent := sent + 1;
        } else if outcome == NotDelivered {
          failed := failed + 1;
        } else {
          whole := false;
          StoppedStays(old(Contents()), queue, n, |queue|, adapters, replies);
          return;
        }
      }
    }

    method PumpDeliveries(c: Call) returns (whole: bool, sent: nat, failed: nat)
      modifies this
      ensures Contents() == Pump(old(Contents()), c)
    {
      if c.recover {
        RecoverSending(c.platform);
      }
      var pending := List(Pending, c.platform);
      var retryable := List(Failed, c.platform);
      whole, sent, failed := SendQueue(Take(pending + retryable, c.limit), c.adapters, c.replies);
    }
  }

  lemma {:induction false} StoppedStays(b: Box, queue: seq<nat>, n: nat, m: nat, adapters: Adapters,
                                        replies: seq<Reply>)
    requires n <= m <= |queue| && !SendFirst(b, queue, n, adapters, replies).1
    ensures SendFirst(b, queue, m, adapters, replies) == SendFirst(b, queue, n, adapters, replies)
  {
    if n < m {
      StoppedStays(b, queue, n, m - 1, adapters, replies);
    }
  }

  // ---------------------------------------------------------------- how often a row is sent

  function Count(ids: seq<nat>, id: nat): nat {
    if ids == [] then 0 else Count(ids[..|ids| - 1], id) + if ids[|ids| - 1] == id then 1 else 0
  }

  lemma {:induction false} CountOfConcat(a: seq<nat>, b: seq<nat>, id: nat)
    ensures Count(a + b, id) == Count(a, id) + Count(b, id)
  {
    if b == [] {
      assert a + b == a;
    } else {
      assert (a + b)[..|a + b| - 1] == a + b[..|b| - 1];
      CountOfConcat(a, b[..|b| - 1], id);
    }
  }

  /** Calls never outnumber attempts, and attempts go past the limit only by recoveries. */
  predicate Bounded(b: Box, id: nat) {
    id < |b.rows| && !IsChannel(b.rows[id]) ==>
      && Count(b.sends, id) <= b.rows[id].attempts
      && b.rows[id].attempts <= MAX_ATTEMPTS + Count(b.recovered, id) - if Sendable(b.rows[id]) then 1 else 0
  }

  ghost predicate BoxInv(b: Box) {
    && (forall i | 0 <= i < |b.sends| :: Generic(b.rows, b.sends[i]))
    && (forall i | 0 <= i < |b.recovered| :: Generic(b.rows, b.recovered[i]))
    && forall id: nat :: Bounded(b, id)
  }

  lemma {:induction false} CountMembership(ids: seq<nat>, id: nat)
    ensures Count(ids, id) > 0 <==> id in ids
  {
    if ids != [] {
      CountMembership(ids[..|ids| - 1], id);
      assert ids == ids[..|ids| - 1] + [ids[|ids| - 1]];
    }
  }

  /** One attempt more on a row that was sendable, with or without a call. */
  predicate Attempted(row: Row, next: Row) {
    Sendable(row) && next.content == row.content && next.attempts == row.attempts + 1
      && (Sendable(next) ==> next.attempts < MAX_ATTEMPTS)
  }

  lemma AttemptBounded(b: Box, id: nat, row: Row, called: bool, x: nat)
    requires Bounded(b, x) && id < |b.rows| && Attempted(b.rows[id], row)
    ensures Bounded(Box(b.rows[id := row], if called then b.sends + [id] else b.sends, b.recovered), x)
  {
    CountOfConcat(b.sends, [id], x);
    assert Count([id], x) == if id == x then 1 else 0 by { assert [id][..0] == []; }
    hide Count;
  }

  /** What a send does, whatever the world answers: nothing, or one attempt on its row. */
  lemma SendAttempts(b: Box, id: nat, adapters: Adapters, reply: Reply) returns (row: Option<Row>, called: bool)
    ensures if row.None? then Send(b, id, adapters, reply).0 == b else
            (id < |b.rows| && Attempted(b.rows[id], row.value)
             && Send(b, id, adapters, reply).0 ==
                  Box(b.rows[id := row.value], if called then b.sends + [id] else b.sends, b.recovered))
  {
    var next := Send(b, id, adapters, reply).0;
    called := !reply.DiesBefore?;
    row := if next == b then None else Some(next.rows[id]);
  }

  lemma SendBounded(b: Box, id: nat, adapters: Adapters, reply: Reply, x: nat)
    requires Bounded(b, x)
    ensures Bounded(Send(b, id, adapters, reply).0, x)
  {
    hide Send, Attempted, Bounded;
    var row, called := SendAttempts(b, id, adapters, reply);
    if row.Some? {
      AttemptBounded(b, id, row.value, called, x);
    }
  }

  lemma SendKeeps(b: Box, id: nat, adapters: Adapters, reply: Reply)
    requires BoxInv(b)
    ensures BoxInv(Send(b, id, adapters, reply).0)
  {
    forall x: nat ensures Bounded(Send(b, id, adapters, reply).0, x) {
      assert Bounded(b, x);
      SendBounded(b, id, adapters, reply, x);
    }
  }

  lemma {:induction false} SendFirstKeeps(b: Box, queue: seq<nat>, n: nat, adapters: Adapters, replies: seq<Reply>)
    requires BoxInv(b) && n <= |queue|
    ensures BoxInv(SendFirst(b, queue, n, adapters, replies).0)
  {
    if n > 0 {
      hide BoxInv, Send;
      SendFirstKeeps(b, queue, n - 1, adapters, replies);
      SendKeeps(SendFirst(b, queue, n - 1, adapters, replies).0, queue[n - 1], adapters, ReplyAt(replies, n - 1));
    }
  }

  lemma RecoverKeeps(b: Box, platform: Option<string>)
    requires BoxInv(b)
    ensures BoxInv(Recover(b, platform))
  {
    var ids := Stuck(b.rows, platform);
    forall x: nat ensures Bounded(Recover(b, platform), x) {
      assert Bounded(b, x);
      CountOfConcat(b.recovered, ids, x);
      CountMembership(ids, x);
    }
  }

  /** One sequential use of the outbox. */
  datatype Use =
    | Pumps(call: Call)
    | Sends(id: nat, adapters: Adapters, reply: Reply)
    | Recovers(platform: Option<string>)
    | Enqueues(row: Row)

  function Apply(b: Box, u: Use): Box {
    match u
    case Pumps(c) => Pump(b, c)
    case Sends(id, adapters, reply) => Send(b, id, adapters, reply).0
    case Recovers(platform) => Recover(b, platform)
    case Enqueues(row) => if IsChannel(row) then b else b.(rows := Create(b.rows, row))
  }

  function ApplyAll(uses: seq<Use>): Box {
    if uses == [] then Box([], [], []) else Apply(ApplyAll(uses[..|uses| - 1]), uses[|uses| - 1])
  }

  lemma CreateKeeps(b: Box, row: Row)
    requires BoxInv(b) && !IsChannel(row)
    ensures BoxInv(b.(rows := Create(b.rows, row)))
  {
    var next := b.(rows := Create(b.rows, row));
    forall x: nat ensures Bounded(next, x) {
      assert Bounded(b, x);
      if x == |b.rows| {
        CountMembership(b.sends, x);
        CountMembership(b.recovered, x);
      }
    }
  }

  lemma ApplyKeeps(b: Box, u: Use)
    requires BoxInv(b)
    ensures BoxInv(Apply(b, u))
  {
    match u
    case Pumps(c) =>
      var start := if c.recover then Recover(b, c.platform) else b;
      if c.recover { RecoverKeeps(b, c.platform); }
      var queue := Take(Waiting(start.rows, c.platform), c.limit);
      SendFirstKeeps(start, queue, |queue|, c.adapters, c.replies);
    case Sends(id, adapters, reply) => SendKeeps(b, id, adapters, reply);
    case Recovers(platform) => RecoverKeeps(b, platform);
    case Enqueues(row) => if !IsChannel(row) { CreateKeeps(b, row); }
  }

  lemma {:induction false} ApplyAllKeeps(uses: seq<Use>)
    ensures BoxInv(ApplyAll(uses))
  {
    if uses == [] {
    } else {
      hide BoxInv, Apply;
      ApplyAllKeeps(uses[..|uses| - 1]);
      ApplyKeeps(ApplyAll(uses[..|uses| - 1]), uses[|uses| - 1]);
    }
  }

  /** Whatever fails or dies: a row is sent at most the attempt limit, plus once for every time recovery reopened it. */
  lemma SendsAreBounded(uses: seq<Use>, id: nat)
    ensures Count(ApplyAll(uses).sends, id) <= MAX_ATTEMPTS + Count(ApplyAll(uses).recovered, id)
  {
    ApplyAllKeeps(uses);
    var b := ApplyAll(uses);
    CountMembership(b.sends, id);
    assert Bounded(b, id);
  }

  // ---------------------------------------------------------------- sent and dead rows are final

  /** A final row and its number of calls stay as they are. */
  predicate Untouched(b: Box, next: Box, id: nat) {
    id < |b.rows| && id < |next.rows| && next.rows[id] == b.rows[id] && Count(next.sends, id) == Count(b.sends, id)
  }

  lemma SendLeaves(b: Box, id: nat, adapters: Adapters, reply: Reply, x: nat)
    requires x < |b.rows| && (x != id || !Sendable(b.rows[x]) || !Routable(adapters, b.rows[x]))
    ensures Untouched(b, Send(b, id, adapters, reply).0, x)
  {
    CountOfConcat(b.sends, [id], x);
    assert Count([id], x) == if id == x then 1 else 0 by { assert [id][..0] == []; }
    hide Count, MarkSending, MarkOutcome;
  }

  lemma {:induction false} SendFirstLeaves(b: Box, queue: seq<nat>, n: nat, adapters: Adapters, replies: seq<Reply>,
                                           x: nat)
    requires n <= |queue| && x < |b.rows| && (!Sendable(b.rows[x]) || !Routable(adapters, b.rows[x]))
    ensures Untouched(b, SendFirst(b, queue, n, adapters, replies).0, x)
  {
    if n > 0 {
      SendFirstLeaves(b, queue, n - 1, adapters, replies, x);
      SendLeaves(SendFirst(b, queue, n - 1, adapters, replies).0, queue[n - 1], adapters, ReplyAt(replies, n - 1), x);
    }
  }

  /** Sent and dead are never retried: no use of the outbox changes such a row or calls an adapter for it. */
  lemma FinalRowsStay(b: Box, u: Use, id: nat)
    requires id < |b.rows| && Final(b.rows[id])
    ensures Untouched(b, Apply(b, u), id)
  {
    match u
    case Pumps(c) =>
      var start := if c.recover then Recover(b, c.platform) else b;
      var queue := Take(Waiting(start.rows, c.platform), c.limit);
      SendFirstLeaves(start, queue, |queue|, c.adapters, c.replies, id);
    case Sends(sent, adapters, reply) => SendLeaves(b, sent, adapters, reply, id);
    case Recovers(_) =>
    case Enqueues(_) =>
  }

  // ---------------------------------------------------------------- repeated pumps empty the queue

  /** How many more times a waiting row can be taken. */
  function Owed(row: Row, platform: Option<string>): nat {
    if !InScope(row, platform) || !Sendable(row) then 0
    else if row.attempts + 1 < MAX_ATTEMPTS then MAX_ATTEMPTS - row.attempts else 1
  }

  function Debt(rows: Table, platform: Option<string>): nat {
    if rows == [] then 0 else Debt(rows[..|rows| - 1], platform) + Owed(rows[|rows| - 1], platform)
  }

  lemma {:induction false} DebtOfUpdate(rows: Table, id: nat, row: Row, platform: Option<string>)
    requires id < |rows|
    ensures Debt(rows[id := row], platform) == Debt(rows, platform) - Owed(rows[id], platform) + Owed(row, platform)
  {
    var n := |rows| - 1;
    if id == n {
      assert rows[id := row][..n] == rows[..n];
    } else {
      assert rows[id := row][..n] == rows[..n][id := row];
      DebtOfUpdate(rows[..n], id, row, platform);
    }
  }

  lemma {:induction false} NoDebtNoneWaiting(rows: Table, platform: Option<string>)
    ensures Debt(rows, platform) == 0 <==> Waiting(rows, platform) == []
  {
    if rows != [] {
      NoDebtNoneWaiting(rows[..|rows| - 1], platform);
    }
  }

  lemma SendPays(b: Box, id: nat, adapters: Adapters, reply: Reply, platform: Option<string>)
    ensures Debt(Send(b, id, adapters, reply).0.rows, platform) <= Debt(b.rows, platform)
    ensures id < |b.rows| && Owed(b.rows[id], platform) > 0 && Routable(adapters, b.rows[id]) ==>
              Debt(Send(b, id, adapters, reply).0.rows, platform) < Debt(b.rows, platform)
  {
    if id < |b.rows| {
      var next := Send(b, id, adapters, reply).0;
      DebtOfUpdate(b.rows, id, next.rows[id], platform);
      assert next.rows == b.rows[id := next.rows[id]];
    }
  }

  lemma {:induction false} SendFirstPays(b: Box, queue: seq<nat>, n: nat, adapters: Adapters, replies: seq<Reply>,
                                         platform: Option<string>)
    requires n <= |queue|
    ensures Debt(SendFirst(b, queue, n, adapters, replies).0.rows, platform) <= Debt(b.rows, platform)
    ensures n > 0 && queue[0] < |b.rows| && Owed(b.rows[queue[0]], platform) > 0
            && Routable(adapters, b.rows[queue[0]]) ==>
              Debt(SendFirst(b, queue, n, adapters, replies).0.rows, platform) < Debt(b.rows, platform)
  {
    if n > 0 {
      hide Send, Owed, Debt;
      SendFirstPays(b, queue, n - 1, adapters, replies, platform);
      SendPays(SendFirst(b, queue, n - 1, adapters, replies).0, queue[n - 1], adapters, ReplyAt(replies, n - 1),
               platform);
      if n == 1 { assert SendFirst(b, queue, 0, adapters, replies) == (b, true); }
    }
  }

  /** A pump of a scope that recovers nothing. */
  predicate Plain(c: Call, platform: Option<string>, adapters: Adapters) {
    c.platform == platform && c.adapters == adapters && !c.recover && c.limit > 0
  }

  ghost predicate AllRoutable(rows: Table, platform: Option<string>, adapters: Adapters) {
    forall id: nat | id < |rows| && InScope(rows[id], platform) && Sendable(rows[id]) :: Routable(adapters, rows[id])
  }

  lemma WaitingMeans(rows: Table, platform: Option<string>, i: nat)
    requires i < |Waiting(rows, platform)|
    ensures var id := Waiting(rows, platform)[i]; id < |rows| && InScope(rows[id], platform) && Sendable(rows[id])
  {
  }

  lemma PumpPays(b: Box, c: Call, platform: Option<string>, adapters: Adapters)
    requires Plain(c, platform, adapters) && AllRoutable(b.rows, platform, adapters) && Waiting(b.rows, platform) != []
    ensures Debt(Pump(b, c).rows, platform) < Debt(b.rows, platform)
  {
    var queue := Take(Waiting(b.rows, platform), c.limit);
    WaitingMeans(b.rows, platform, 0);
    assert queue[0] == Waiting(b.rows, platform)[0];
    SendFirstPays(b, queue, |queue|, c.adapters, c.replies, platform);
  }

  lemma SendKeepsRoutable(b: Box, id: nat, adapters: Adapters, reply: Reply, platform: Option<string>)
    requires AllRoutable(b.rows, platform, adapters)
    ensures AllRoutable(Send(b, id, adapters, reply).0.rows, platform, adapters)
  {
  }

  lemma {:induction false} SendFirstKeepsRoutable(b: Box, queue: seq<nat>, n: nat, adapters: Adapters,
                                                  replies: seq<Reply>, platform: Option<string>)
    requires n <= |queue| && AllRoutable(b.rows, platform, adapters)
    ensures AllRoutable(SendFirst(b, queue, n, adapters, replies).0.rows, platform, adapters)
  {
    if n > 0 {
      hide AllRoutable, Send;
      SendFirstKeepsRoutable(b, queue, n - 1, adapters, replies, platform);
      SendKeepsRoutable(SendFirst(b, queue, n - 1, adapters, replies).0, queue[n - 1], adapters,
                        ReplyAt(replies, n - 1), platform);
    }
  }

  function PumpAll(b: Box, calls: seq<Call>): Box {
    if calls == [] then b else Pump(PumpAll(b, calls[..|calls| - 1]), calls[|calls| - 1])
  }

  predicate AllPlain(calls: seq<Call>, platform: Option<string>, adapters: Adapters) {
    forall i | 0 <= i < |calls| :: Plain(calls[i], platform, adapters)
  }

  lemma {:induction false} PumpsPay(b: Box, calls: seq<Call>, platform: Option<string>, adapters: Adapters)
    requires AllPlain(calls, platform, adapters) && AllRoutable(b.rows, platform, adapters)
    ensures AllRoutable(PumpAll(b, calls).rows, platform, adapters)
    ensures Debt(PumpAll(b, calls).rows, platform) <= if |calls| <= Debt(b.rows, platform) then
              Debt(b.rows, platform) - |calls| else 0
  {
    if calls != [] {
      hide AllRoutable, Send, Owed;
      var n := |calls| - 1;
      PumpsPay(b, calls[..n], platform, adapters);
      var mid := PumpAll(b, calls[..n]);
      SendFirstKeepsRoutable(mid, Take(Waiting(mid.rows, platform), calls[n].limit),
                             |Take(Waiting(mid.rows, platform), calls[n].limit)|,
                             adapters, calls[n].replies, platform);
      NoDebtNoneWaiting(mid.rows, platform);
      if Waiting(mid.rows, platform) != [] {
        PumpPays(mid, calls[n], platform, adapters);
      } else {
        assert Take(Waiting(mid.rows, platform), calls[n].limit) == [];
        assert Pump(mid, calls[n]) == mid;
      }
    }
  }

  lemma {:induction false} UnroutableStays(b: Box, calls: seq<Call>, platform: Option<string>, adapters: Adapters,
                                           id: nat)
    requires AllPlain(calls, platform, adapters) && id < |b.rows| && !Routable(adapters, b.rows[id])
    ensures Untouched(b, PumpAll(b, calls), id)
  {
    if calls != [] {
      var n := |calls| - 1;
      UnroutableStays(b, calls[..n], platform, adapters, id);
      var mid := PumpAll(b, calls[..n]);
      var queue := Take(Waiting(mid.rows, platform), calls[n].limit);
      SendFirstLeaves(mid, queue, |queue|, adapters, calls[n].replies, id);
    }
  }

  /**
   Repeated pumps without recovery, as many as the rows owe attempts, leave nothing waiting whatever the adapters
   answer, exactly when every waiting row's platform has an adapter: one row without stops every pump that reaches it,
   for good.
   */
  lemma PumpsDrain(b: Box, calls: seq<Call>, platform: Option<string>, adapters: Adapters)
    requires AllPlain(calls, platform, adapters) && |calls| >= Debt(b.rows, platform)
    ensures Waiting(PumpAll(b, calls).rows, platform) == [] <==> AllRoutable(b.rows, platform, adapters)
  {
    if AllRoutable(b.rows, platform, adapters) {
      PumpsPay(b, calls, platform, adapters);
      NoDebtNoneWaiting(PumpAll(b, calls).rows, platform);
    } else {
      var id: nat :| id < |b.rows| && InScope(b.rows[id], platform) && Sendable(b.rows[id])
        && !Routable(adapters, b.rows[id]);
      UnroutableStays(b, calls, platform, adapters, id);
      var next := PumpAll(b, calls);
      DebtCovers(next.rows, id, platform);
      NoDebtNoneWaiting(next.rows, platform);
    }
  }

  lemma {:induction false} DebtCovers(rows: Table, id: nat, platform: Option<string>)
    requires id < |rows|
    ensures Debt(rows, platform) >= Owed(rows[id], platform)
  {
    if id < |rows| - 1 {
      DebtCovers(rows[..|rows| - 1], id, platform);
    }
  }

  /** While the first row a pump takes has no adapter, pumps of that scope change nothing at all. */
  lemma {:induction false} BlockedPumpsStandStill(b: Box, calls: seq<Call>, platform: Option<string>,
                                                  adapters: Adapters)
    requires AllPlain(calls, platform, adapters) && Waiting(b.rows, platform) != []
    requires !Routable(adapters, b.rows[Waiting(b.rows, platform)[0]])
    ensures PumpAll(b, calls) == b
  {
    if calls != [] {
      var n := |calls| - 1;
      BlockedPumpsStandStill(b, calls[..n], platform, adapters);
      var queue := Take(Waiting(b.rows, platform), calls[n].limit);
      WaitingMeans(b.rows, platform, 0);
      FirstBlocks(b, queue, adapters, calls[n].replies);
    }
  }

  lemma FirstBlocks(b: Box, queue: seq<nat>, adapters: Adapters, replies: seq<Reply>)
    requires queue != [] && queue[0] < |b.rows| && !IsChannel(b.rows[queue[0]]) && Sendable(b.rows[queue[0]])
    requires !Routable(adapters, b.rows[queue[0]])
    ensures SendFirst(b, queue, |queue|, adapters, replies) == (b, false)
  {
    assert SendFirst(b, queue, 0, adapters, replies) == (b, true);
    assert SendFirst(b, queue, 1, adapters, replies) == (b, false);
    StoppedStays(b, queue, 1, |queue|, adapters, replies);
  }

  const UNROUTABLE := Row("kook", "general", PlainKey("first"), None, Pending, None, 0)
  const ROUTABLE := Row("discord", "general", PlainKey("second"), None, Pending, None, 0)

  /** A row for a platform without an adapter, enqueued first: no number of pumps ever sends the row behind it. */
  lemma UnroutableRowBlocks(calls: seq<Call>)
    requires AllPlain(calls, None, Some({"discord"}))
    ensures var b := ApplyAll([Enqueues(UNROUTABLE), Enqueues(ROUTABLE)]);
            && b.rows == [UNROUTABLE, ROUTABLE] && Routable(Some({"discord"}), b.rows[1])
            && PumpAll(b, calls) == b && Waiting(PumpAll(b, calls).rows, None) == [0, 1]
  {
    var uses := [Enqueues(UNROUTABLE), Enqueues(ROUTABLE)];
    assert uses[..1] == [Enqueues(UNROUTABLE)] && uses[..1][..0] == [];
    assert ApplyAll(uses[..1]).rows == [UNROUTABLE];
    var b := ApplyAll(uses);
    assert b.rows == [UNROUTABLE, ROUTABLE];
    TwoWaiting(b.rows);
    BlockedPumpsStandStill(b, calls, None, Some({"discord"}));
  }

  lemma TwoWaiting(rows: Table)
    requires rows == [UNROUTABLE, ROUTABLE]
    ensures Waiting(rows, None) == [0, 1]
  {
    assert rows[..1] == [UNROUTABLE] && rows[..1][..0] == [];
    assert Listed(rows[..1], Pending, None) == [0] && Listed(rows[..1], Failed, None) == [];
    assert Listed(rows, Pending, None) == [0, 1] && Listed(rows, Failed, None) == [];
  }
}
