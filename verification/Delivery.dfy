/**
 The delivery table and everything that shares it: one-shot channel senders, generic pumps, recovery passes and crashes.

 A process advances one statement or transaction at a time; between any two of its steps any other process may run, or
 the process may die.  A delivery's id is its position in the table: rows are never deleted.
 */
module Delivery {
  import opened Text

  datatype Status = Pending | Sending | Sent | Failed | Dead

  datatype Scope = Scope(actor: string, workspace: string, platform: string, channel: string)

  /** A channel message key is the digest of its scope and send key; other keys are plain text. */
  datatype Key = ChannelKey(scope: Scope, sendKey: string) | PlainKey(text: string)

  /** The digest of a channel message's scope, content and sender identity. */
  datatype Content = Content(scope: Scope, text: string, reply: Option<string>, identity: Option<string>)

  /** `content` is present on channel deliveries only. */
  datatype Row = Row(platform: string, destination: string, key: Key, content: Option<Content>, status: Status,
                     message: Option<string>, attempts: nat)

  type Table = seq<Row>

  predicate IsChannel(row: Row) {
    row.content.Some?
  }

  function FindKey(rows: Table, key: Key): (i: Option<nat>)
    ensures i.Some? ==> i.value < |rows| && rows[i.value].key == key
    ensures i.None? ==> forall j | 0 <= j < |rows| :: rows[j].key != key
  {
    if rows == [] then None
    else if rows[|rows| - 1].key == key then Some(|rows| - 1)
    else FindKey(rows[..|rows| - 1], key)
  }

  /** What an adapter call came to: it returned some text, was rejected, or ended in any other way. */
  datatype Answer = Returns(text: string) | Rejects | Unclear

  predicate IsDigits(s: string) {
    1 <= |s| <= 20 && forall i | 0 <= i < |s| :: '0' <= s[i] <= '9'
  }

  const PREFIX := "discord:"

  predicate IsMessageId(s: string) {
    PREFIX <= s && IsDigits(s[|PREFIX|..])
  }

  // ---------------------------------------------------------------- the table operations

  /** `create_delivery`: an existing key wins. */
  function Create(rows: Table, row: Row): Table {
    if FindKey(rows, row.key).Some? then rows else rows + [row.(status := Pending, message := None, attempts := 0)]
  }

  datatype Refusal = Forbidden | Conflict

  type Bindings = map<(string, string), string>

  /** A parsed send call, with the sender identity resolved for it. */
  datatype Request = Request(scope: Scope, sendKey: string, text: string, reply: Option<string>,
                             identity: Option<string>) {
    function MessageKey(): Key { ChannelKey(scope, sendKey) }
    function Fingerprint(): Content { Content(scope, text, reply, identity) }
  }

  predicate MayUse(bindings: Bindings, scope: Scope) {
    (scope.platform, scope.channel) in bindings && bindings[(scope.platform, scope.channel)] == scope.workspace
  }

  /** `inspect_channel_delivery`: the prior row of a key, if it may be shown and is the same message. */
  function Inspect(rows: Table, bindings: Bindings, q: Request): (r: Result<Option<nat>, Refusal>)
    ensures r.Ok? && r.value.Some? ==> r.value.value < |rows| && rows[r.value.value].key == q.MessageKey()
    ensures r.Ok? && r.value.None? ==> FindKey(rows, q.MessageKey()).None?
  {
    if !MayUse(bindings, q.scope) then Err(Forbidden)
    else
      var prior := FindKey(rows, q.MessageKey());
      if prior.None? then Ok(None)
      else
        var row := rows[prior.value];
        if row.content != Some(q.Fingerprint()) || row.platform != q.scope.platform
          || row.destination != q.scope.channel then Err(Conflict)
        else Ok(prior)
  }

  datatype Reservation = Refused(error: Refusal) | Prior(id: nat) | New(id: nat)

  /** `reserve_channel_delivery`, one transaction: inspect, audit, insert, claim; a failure leaves nothing behind. */
  function Reserve(rows: Table, requested: set<Key>, bindings: Bindings, q: Request): Reservation {
    match Inspect(rows, bindings, q)
    case Err(e) => Refused(e)
    case Ok(Some(id)) => Prior(id)
    case Ok(None) => if q.MessageKey() in requested then Refused(Conflict) else New(|rows|)
  }

  function ReservedRow(q: Request): Row {
    Row(q.scope.platform, q.scope.channel, q.MessageKey(), Some(q.Fingerprint()), Sending, None, 1)
  }

  /** What a sender shows of the prior row of its key, whatever that row's content. */
  function Replay(rows: Table, bindings: Bindings, q: Request): Option<string> {
    var prior := FindKey(rows, q.MessageKey());
    if prior.None? || !MayUse(bindings, q.scope) then None else Receipt(rows[prior.value])
  }

  /** `finish_channel_delivery`: a definite outcome is stored on a row that is still sending. */
  function Finish(row: Row, answer: Answer): Row {
    if !IsChannel(row) || row.status != Sending then row
    else match answer
      case Rejects => row.(status := Dead, message := None)
      case Returns(text) => if IsMessageId(text) then row.(status := Sent, message := Some(text)) else row
      case Unclear => row
  }

  /** What a receipt of a row tells: the message id if the row is sent, else nothing definite. */
  function Receipt(row: Row): Option<string> {
    if row.status == Sent && row.message.Some? && row.message.value != "" then row.message else None
  }

  const MAX_ATTEMPTS := 3

  predicate Sendable(row: Row) {
    row.status in {Pending, Failed}
  }

  predicate Final(row: Row) {
    row.status in {Sent, Dead}
  }

  function MarkSending(row: Row, counted: nat): Row {
    row.(status := Sending, attempts := counted + 1)
  }

  /** `mark_delivery_sent` or `mark_delivery_failed`, by the answer and the attempt count the sender holds. */
  function MarkOutcome(row: Row, answer: Answer, attempts: nat): Row {
    match answer
    case Returns(text) => row.(status := Sent, message := Some(text))
    case _ => row.(status := if attempts >= MAX_ATTEMPTS then Dead else Failed)
  }

  function Recovered(row: Row): Row {
    row.(status := Pending)
  }

  predicate Matches(row: Row, platform: Option<string>) {
    platform.None? || row.platform == platform.value
  }

  /** The non-channel rows a pump of a platform scope considers. */
  predicate InScope(row: Row, platform: Option<string>) {
    !IsChannel(row) && Matches(row, platform) && (platform.None? ==> row.platform != "none")
  }

  /** The ids of the rows in a status and scope, in row order. */
  function Listed(rows: Table, status: Status, platform: Option<string>): (ids: seq<nat>)
    ensures forall i | 0 <= i < |ids| ::
              ids[i] < |rows| && rows[ids[i]].status == status && InScope(rows[ids[i]], platform)
  {
    if rows == [] then [] else
      var n := |rows| - 1;
      Listed(rows[..n], status, platform) + if rows[n].status == status && InScope(rows[n], platform) then [n] else []
  }

  /** The ids a recovery pass selects: the channel rows are filtered out. */
  function Stuck(rows: Table, platform: Option<string>): (ids: seq<nat>)
    ensures forall i | 0 <= i < |ids| :: ids[i] < |rows| && rows[ids[i]].status == Sending && !IsChannel(rows[ids[i]])
  {
    if rows == [] then [] else
      var n := |rows| - 1;
      Stuck(rows[..n], platform) + if rows[n].status == Sending && Matches(rows[n], platform)
        && !IsChannel(rows[n]) then [n] else []
  }

  function Take(ids: seq<nat>, limit: nat): seq<nat> {
    if |ids| <= limit then ids else ids[..limit]
  }

  /** One update per selected row. */
  function RecoverAll(rows: Table, ids: seq<nat>): (r: Table)
    ensures |r| == |rows|
    ensures forall j | 0 <= j < |rows| :: r[j] == if j in ids then Recovered(rows[j]) else rows[j]
  {
    if ids == [] then rows else
      var n := |ids| - 1;
      var earlier := RecoverAll(rows, ids[..n]);
      assert forall j | 0 <= j < |rows| :: j in ids <==> j in ids[..n] || j == ids[n];
      if ids[n] < |rows| then earlier[ids[n] := Recovered(earlier[ids[n]])] else earlier
  }

  // ---------------------------------------------------------------- processes

  datatype Process =
    | Entered(q: Request)
    | Cleared(q: Request)
    | Rechecking(q: Request)
    | Claimed(q: Request, id: nat)
    | Posted(q: Request, id: nat, answer: Answer)
    | Told(q: Request, message: Option<string>)
    | Listing(platform: Option<string>, limit: nat)
    | ListingFailed(platform: Option<string>, limit: nat, pending: seq<nat>)
    | Pumping(queue: seq<nat>)
    | Checked(id: nat, queue: seq<nat>)
    | Counted(id: nat, attempts: nat, queue: seq<nat>)
    | Marked(id: nat, queue: seq<nat>)
    | Ready(id: nat, attempts: nat, queue: seq<nat>)
    | Returned(id: nat, attempts: nat, answer: Answer, queue: seq<nat>)
    | Recovering(platform: Option<string>)
    | Selected(ids: seq<nat>)
    | Gone

  /** A recorded adapter call. */
  datatype Post = Post(id: nat, key: Key, answer: Answer)

  datatype System = System(rows: Table, requested: set<Key>, bindings: Bindings, posts: seq<Post>,
                           processes: seq<Process>)

  datatype Move =
    | Spawn(process: Process)
    | Advance(i: nat, answer: Answer, stored: bool)
    | Crash(i: nat)
    | Enqueue(row: Row)
    | Rebind(bindings: Bindings)

  /** A direct send of one row is a pump whose queue is given. */
  predicate MoveOk(m: Move) {
    match m
    case Spawn(p) => p.Entered? || p.Listing? || p.Pumping? || p.Recovering?
    case Enqueue(row) => !IsChannel(row)
    case _ => true
  }

  function Become(s: System, i: nat, p: Process): System
    requires i < |s.processes|
  {
    s.(processes := s.processes[i := p])
  }

  function SetRow(s: System, id: nat, row: Row): System
    requires id < |s.rows|
  {
    s.(rows := s.rows[id := row])
  }

  /** The next step of a sender. */
  function SenderStep(s: System, i: nat, answer: Answer, stored: bool): System
    requires i < |s.processes|
  {
    match s.processes[i]
    case Entered(q) =>
      if FindKey(s.rows, q.MessageKey()).None? then Become(s, i, Cleared(q))
      else Become(s, i, Told(q, Replay(s.rows, s.bindings, q)))
    case Cleared(q) =>
      (match Reserve(s.rows, s.requested, s.bindings, q)
       case Refused(Forbidden) => Become(s, i, Told(q, None))
       case Refused(Conflict) => Become(s, i, Rechecking(q))
       case Prior(id) => Become(s, i, Told(q, if id < |s.rows| then Receipt(s.rows[id]) else None))
       case New(id) => Become(s.(rows := s.rows + [ReservedRow(q)], requested := s.requested + {q.MessageKey()}), i,
                              Claimed(q, id)))
    case Rechecking(q) => Become(s, i, Told(q, Replay(s.rows, s.bindings, q)))
    case Claimed(q, id) => Become(s.(posts := s.posts + [Post(id, q.MessageKey(), answer)]), i, Posted(q, id, answer))
    case Posted(q, id, given) =>
      if !stored || id >= |s.rows| then Become(s, i, Told(q, None))
      else
        var row := Finish(s.rows[id], given);
        Become(SetRow(s, id, row), i, Told(q, if row == s.rows[id] then None else Receipt(row)))
    case _ => s
  }

  /** The next step of a pump: each row is checked, counted, marked, read again, sent, and its outcome stored. */
  function PumpStep(s: System, i: nat, answer: Answer): System
    requires i < |s.processes|
  {
    match s.processes[i]
    case Listing(platform, limit) => Become(s, i, ListingFailed(platform, limit, Listed(s.rows, Pending, platform)))
    case ListingFailed(platform, limit, pending) =>
      Become(s, i, Pumping(Take(pending + Listed(s.rows, Failed, platform), limit)))
    case Pumping(queue) =>
      if queue == [] || queue[0] >= |s.rows| then Become(s, i, Gone)
      else if IsChannel(s.rows[queue[0]]) || !Sendable(s.rows[queue[0]]) then Become(s, i, Gone)
      else Become(s, i, Checked(queue[0], queue[1..]))
    case Checked(id, queue) => if id >= |s.rows| then s else Become(s, i, Counted(id, s.rows[id].attempts, queue))
    case Counted(id, n, queue) =>
      if id >= |s.rows| then s else Become(SetRow(s, id, MarkSending(s.rows[id], n)), i, Marked(id, queue))
    case Marked(id, queue) => if id >= |s.rows| then s else Become(s, i, Ready(id, s.rows[id].attempts, queue))
    case Ready(id, n, queue) =>
      if id >= |s.rows| then s else
        Become(s.(posts := s.posts + [Post(id, s.rows[id].key, answer)]), i, Returned(id, n, answer, queue))
    case Returned(id, n, given, queue) =>
      if id >= |s.rows| then s else Become(SetRow(s, id, MarkOutcome(s.rows[id], given, n)), i, Pumping(queue))
    case _ => s
  }

  function RecoveryStep(s: System, i: nat): System
    requires i < |s.processes|
  {
    match s.processes[i]
    case Recovering(platform) => Become(s, i, Selected(Stuck(s.rows, platform)))
    case Selected(ids) => Become(s.(rows := RecoverAll(s.rows, ids)), i, Gone)
    case _ => s
  }

  predicate IsSender(p: Process) {
    p.Entered? || p.Cleared? || p.Rechecking? || p.Claimed? || p.Posted? || p.Told?
  }

  function Next(s: System, m: Move): System {
    match m
    case Spawn(p) => s.(processes := s.processes + [p])
    case Advance(i, answer, stored) =>
      if i >= |s.processes| then s
      else if IsSender(s.processes[i]) then SenderStep(s, i, answer, stored)
      else if s.processes[i].Recovering? || s.processes[i].Selected? then RecoveryStep(s, i)
      else PumpStep(s, i, answer)
    case Crash(i) => if i >= |s.processes| then s else Become(s, i, Gone)
    case Enqueue(row) => s.(rows := Create(s.rows, row))
    case Rebind(b) => s.(bindings := b)
  }

  // ---------------------------------------------------------------- the invariant

  predicate Unposted(posts: seq<Post>, id: nat) {
    forall a | 0 <= a < |posts| :: posts[a].id != id
  }

  predicate Generic(rows: Table, id: nat) {
    id < |rows| && !IsChannel(rows[id])
  }

  predicate AllGeneric(rows: Table, ids: seq<nat>) {
    forall i | 0 <= i < |ids| :: Generic(rows, ids[i])
  }

  predicate Announced(posts: seq<Post>, key: Key, message: string) {
    exists a :: 0 <= a < |posts| && posts[a].key == key && posts[a].answer == Returns(message)
  }

  predicate RejectionOf(posts: seq<Post>, key: Key) {
    exists a :: 0 <= a < |posts| && posts[a].key == key && posts[a].answer == Rejects
  }

  predicate ProcessOk(rows: Table, posts: seq<Post>, p: Process) {
    match p
    case Claimed(q, id) =>
      id < |rows| && IsChannel(rows[id]) && rows[id].key == q.MessageKey() && rows[id].status == Sending
        && Unposted(posts, id)
    case Posted(q, id, answer) =>
      id < |rows| && IsChannel(rows[id]) && rows[id].key == q.MessageKey() && Post(id, q.MessageKey(), answer) in posts
    case Told(q, message) => message.Some? ==> Announced(posts, q.MessageKey(), message.value)
    case Checked(id, _) => Generic(rows, id)
    case Counted(id, _, _) => Generic(rows, id)
    case Marked(id, _) => Generic(rows, id)
    case Ready(id, _, _) => Generic(rows, id)
    case Returned(id, _, answer, _) => Generic(rows, id) && Post(id, rows[id].key, answer) in posts
    case Selected(ids) => AllGeneric(rows, ids)
    case _ => true
  }

  predicate KeysUnique(rows: Table) {
    forall a, b | 0 <= a < b < |rows| :: rows[a].key != rows[b].key
  }

  predicate PostsOk(rows: Table, posts: seq<Post>) {
    && (forall a | 0 <= a < |posts| :: posts[a].id < |rows| && posts[a].key == rows[posts[a].id].key)
    && (forall a, b | 0 <= a < b < |posts| && posts[a].id == posts[b].id :: !IsChannel(rows[posts[a].id]))
  }

  /**
   A row marked sent carries what a call for its key returned; a channel row is never retryable, and dead only if
   rejected.
   */
  predicate RowOk(posts: seq<Post>, row: Row) {
    && (row.status == Sent ==> row.message.Some? && Announced(posts, row.key, row.message.value))
    && (IsChannel(row) ==> row.status in {Sending, Sent, Dead} && (row.status == Dead ==> RejectionOf(posts, row.key)))
  }

  predicate RowsOk(rows: Table, posts: seq<Post>) {
    forall j | 0 <= j < |rows| :: RowOk(posts, rows[j])
  }

  predicate ProcessesOk(rows: Table, posts: seq<Post>, processes: seq<Process>) {
    forall i | 0 <= i < |processes| :: ProcessOk(rows, posts, processes[i])
  }

  /** No row is claimed by two senders. */
  predicate ClaimsDistinct(processes: seq<Process>) {
    forall i, j | 0 <= i < j < |processes| && processes[i].Claimed? && processes[j].Claimed? ::
      processes[i].id != processes[j].id
  }

  predicate Inv(s: System) {
    && KeysUnique(s.rows) && PostsOk(s.rows, s.posts) && RowsOk(s.rows, s.posts)
    && ProcessesOk(s.rows, s.posts, s.processes) && ClaimsDistinct(s.processes)
  }

  // ---------------------------------------------------------------- every step keeps it

  /** More posts, and rows that keep their keys and kinds, leave what was said about other processes true. */
  predicate Extends(rows: Table, next: Table) {
    |rows| <= |next| && forall j | 0 <= j < |rows| :: next[j].key == rows[j].key && next[j].content == rows[j].content
  }

  lemma ProcessStays(rows: Table, posts: seq<Post>, next: Table, more: seq<Post>, p: Process)
    requires ProcessOk(rows, posts, p) && Extends(rows, next)
    requires p.Claimed? ==> next[p.id].status == Sending && Unposted(more, p.id)
    ensures ProcessOk(next, posts + more, p)
  {
    if p.Told? && p.message.Some? {
      AnnouncedStays(posts, more, p.q.MessageKey(), p.message.value);
    } else if p.Claimed? {
      forall a | 0 <= a < |posts + more| ensures (posts + more)[a].id != p.id {
        if a >= |posts| { assert (posts + more)[a] == more[a - |posts|]; }
      }
    }
  }

  lemma AnnouncedStays(posts: seq<Post>, more: seq<Post>, key: Key, message: string)
    requires Announced(posts, key, message)
    ensures Announced(posts + more, key, message)
  {
    var a :| 0 <= a < |posts| && posts[a].key == key && posts[a].answer == Returns(message);
    assert (posts + more)[a] == posts[a];
  }

  lemma RejectionStays(posts: seq<Post>, more: seq<Post>, key: Key)
    requires RejectionOf(posts, key)
    ensures RejectionOf(posts + more, key)
  {
    var a :| 0 <= a < |posts| && posts[a].key == key && posts[a].answer == Rejects;
    assert (posts + more)[a] == posts[a];
  }

  lemma RowStays(posts: seq<Post>, more: seq<Post>, row: Row)
    requires RowOk(posts, row)
    ensures RowOk(posts + more, row)
  {
    if row.status == Sent { AnnouncedStays(posts, more, row.key, row.message.value); }
    if IsChannel(row) && row.status == Dead { RejectionStays(posts, more, row.key); }
  }

  /** One process changes to `p`, with the table now `rows` and `more` adapter calls made. */
  function Stepped(s: System, i: nat, p: Process, rows: Table, more: seq<Post>): System
    requires i < |s.processes|
  {
    s.(rows := rows, posts := s.posts + more, processes := s.processes[i := p])
  }

  /** The claims of the other processes are not touched. */
  predicate ClaimsUntouched(s: System, i: nat, p: Process, rows: Table, more: seq<Post>)
    requires i < |s.processes| && |s.rows| <= |rows|
  {
    forall j | 0 <= j < |s.processes| && j != i && s.processes[j].Claimed? ::
      && s.processes[j].id < |rows| && rows[s.processes[j].id].status == Sending && Unposted(more, s.processes[j].id)
      && (p.Claimed? ==> p.id != s.processes[j].id)
  }

  lemma SteppedKeeps(s: System, i: nat, p: Process, rows: Table, more: seq<Post>)
    requires Inv(s) && i < |s.processes| && Extends(s.rows, rows)
    requires KeysUnique(rows) && PostsOk(rows, s.posts + more) && RowsOk(rows, s.posts + more)
    requires ProcessOk(rows, s.posts + more, p) && ClaimsUntouched(s, i, p, rows, more)
    ensures Inv(Stepped(s, i, p, rows, more))
  {
    var next := Stepped(s, i, p, rows, more);
    forall j | 0 <= j < |next.processes|
      ensures ProcessOk(rows, next.posts, next.processes[j])
    {
      if j != i {
        ProcessStays(s.rows, s.posts, rows, more, s.processes[j]);
      }
    }
  }

  /** A step that only changes the process itself. */
  lemma BecomeKeeps(s: System, i: nat, p: Process)
    requires Inv(s) && i < |s.processes| && ProcessOk(s.rows, s.posts, p) && !p.Claimed?
    ensures Inv(Become(s, i, p))
  {
    assert s.posts + [] == s.posts;
    assert ClaimsUntouched(s, i, p, s.rows, []) by {
      forall j | 0 <= j < |s.processes| && j != i && s.processes[j].Claimed?
        ensures s.processes[j].id < |s.rows| && s.rows[s.processes[j].id].status == Sending
      {
        assert ProcessOk(s.rows, s.posts, s.processes[j]);
      }
    }
    SteppedKeeps(s, i, p, s.rows, []);
  }

  /** A step that also changes a row, keeping its key and kind: a generic row, or a channel row nobody claims. */
  lemma RowStepKeeps(s: System, i: nat, p: Process, id: nat, row: Row)
    requires Inv(s) && i < |s.processes| && id < |s.rows| && !p.Claimed?
    requires row.key == s.rows[id].key && row.content == s.rows[id].content && RowOk(s.posts, row)
    requires IsChannel(row) ==> !Unposted(s.posts, id)
    requires ProcessOk(s.rows[id := row], s.posts, p)
    ensures Inv(Become(SetRow(s, id, row), i, p))
  {
    var rows := s.rows[id := row];
    assert s.posts + [] == s.posts;
    assert ClaimsUntouched(s, i, p, rows, []) by {
      forall j | 0 <= j < |s.processes| && j != i && s.processes[j].Claimed?
        ensures s.processes[j].id < |rows| && rows[s.processes[j].id].status == Sending
      {
        assert ProcessOk(s.rows, s.posts, s.processes[j]);
      }
    }
    SteppedKeeps(s, i, p, rows, []);
  }

  /** An adapter call of a process that holds the row. */
  lemma PostStepKeeps(s: System, i: nat, p: Process, id: nat, answer: Answer)
    requires Inv(s) && i < |s.processes| && id < |s.rows| && !p.Claimed?
    requires IsChannel(s.rows[id]) ==> s.processes[i].Claimed? && s.processes[i].id == id
    requires ProcessOk(s.rows, s.posts + [Post(id, s.rows[id].key, answer)], p)
    ensures Inv(Become(s.(posts := s.posts + [Post(id, s.rows[id].key, answer)]), i, p))
  {
    var more := [Post(id, s.rows[id].key, answer)];
    assert ProcessOk(s.rows, s.posts, s.processes[i]);
    assert ClaimsUntouched(s, i, p, s.rows, more) by {
      forall j | 0 <= j < |s.processes| && j != i && s.processes[j].Claimed?
        ensures s.processes[j].id < |s.rows| && s.rows[s.processes[j].id].status == Sending
        ensures Unposted(more, s.processes[j].id)
      {
        assert ProcessOk(s.rows, s.posts, s.processes[j]);
      }
    }
    forall j | 0 <= j < |s.rows| ensures RowOk(s.posts + more, s.rows[j]) {
      RowStays(s.posts, more, s.rows[j]);
    }
    SteppedKeeps(s, i, p, s.rows, more);
  }

  lemma ReceiptIsAnnounced(s: System, id: nat)
    requires Inv(s) && id < |s.rows| && Receipt(s.rows[id]).Some?
    ensures Announced(s.posts, s.rows[id].key, Receipt(s.rows[id]).value)
  {
    assert RowOk(s.posts, s.rows[id]);
  }

  lemma ReplayKeeps(s: System, i: nat, q: Request)
    requires Inv(s) && i < |s.processes|
    ensures Inv(Become(s, i, Told(q, Replay(s.rows, s.bindings, q))))
  {
    var prior := FindKey(s.rows, q.MessageKey());
    if prior.Some? && Receipt(s.rows[prior.value]).Some? {
      ReceiptIsAnnounced(s, prior.value);
    }
    BecomeKeeps(s, i, Told(q, Replay(s.rows, s.bindings, q)));
  }

  lemma ReserveKeeps(s: System, i: nat, q: Request)
    requires Inv(s) && i < |s.processes| && FindKey(s.rows, q.MessageKey()).None?
    ensures Inv(Become(s.(rows := s.rows + [ReservedRow(q)], requested := s.requested + {q.MessageKey()}), i,
                       Claimed(q, |s.rows|)))
  {
    var rows, p := s.rows + [ReservedRow(q)], Claimed(q, |s.rows|);
    assert s.posts + [] == s.posts;
    forall j | 0 <= j < |rows| ensures RowOk(s.posts, rows[j]) {
      if j < |s.rows| { assert rows[j] == s.rows[j]; }
    }
    assert ClaimsUntouched(s, i, p, rows, []) by {
      forall j | 0 <= j < |s.processes| && j != i && s.processes[j].Claimed?
        ensures s.processes[j].id < |s.rows| && rows[s.processes[j].id].status == Sending
      {
        assert ProcessOk(s.rows, s.posts, s.processes[j]);
      }
    }
    SteppedKeeps(s, i, p, rows, []);
  }

  lemma ClearedKeeps(s: System, i: nat, answer: Answer, stored: bool)
    requires Inv(s) && i < |s.processes| && s.processes[i].Cleared?
    ensures Inv(SenderStep(s, i, answer, stored))
  {
    var q := s.processes[i].q;
    match Reserve(s.rows, s.requested, s.bindings, q)
    case Refused(Forbidden) => BecomeKeeps(s, i, Told(q, None));
    case Refused(Conflict) => BecomeKeeps(s, i, Rechecking(q));
    case New(id) => ReserveKeeps(s, i, q);
    case Prior(id) =>
      if Receipt(s.rows[id]).Some? { ReceiptIsAnnounced(s, id); }
      BecomeKeeps(s, i, Told(q, Receipt(s.rows[id])));
  }

  lemma FinishedRowOk(posts: seq<Post>, row: Row, q: Request, id: nat, answer: Answer)
    requires RowOk(posts, row) && row.key == q.MessageKey() && Post(id, q.MessageKey(), answer) in posts
    ensures RowOk(posts, Finish(row, answer))
  {
  }

  lemma PostedKeeps(s: System, i: nat, answer: Answer, stored: bool)
    requires Inv(s) && i < |s.processes| && s.processes[i].Posted?
    ensures Inv(SenderStep(s, i, answer, stored))
  {
    var p := s.processes[i];
    assert ProcessOk(s.rows, s.posts, p);
    if !stored {
      BecomeKeeps(s, i, Told(p.q, None));
    } else {
      var row := Finish(s.rows[p.id], p.answer);
      FinishedRowOk(s.posts, s.rows[p.id], p.q, p.id, p.answer);
      RowStepKeeps(s, i, Told(p.q, if row == s.rows[p.id] then None else Receipt(row)), p.id, row);
    }
  }

  lemma SenderKeeps(s: System, i: nat, answer: Answer, stored: bool)
    requires Inv(s) && i < |s.processes| && IsSender(s.processes[i])
    ensures Inv(SenderStep(s, i, answer, stored))
  {
    match s.processes[i]
    case Entered(q) =>
      if FindKey(s.rows, q.MessageKey()).None? { BecomeKeeps(s, i, Cleared(q)); } else { ReplayKeeps(s, i, q); }
    case Cleared(q) => ClearedKeeps(s, i, answer, stored);
    case Rechecking(q) => ReplayKeeps(s, i, q);
    case Claimed(q, id) =>
      assert ProcessOk(s.rows, s.posts, s.processes[i]);
      PostStepKeeps(s, i, Posted(q, id, answer), id, answer);
    case Posted(_, _, _) => PostedKeeps(s, i, answer, stored);
    case Told(_, _) =>
  }

  /** A pump gathers its queue and checks the next row. */
  lemma QueueKeeps(s: System, i: nat, answer: Answer)
    requires Inv(s) && i < |s.processes|
    requires s.processes[i].Listing? || s.processes[i].ListingFailed? || s.processes[i].Pumping?
    ensures Inv(PumpStep(s, i, answer))
  {
    assert ProcessOk(s.rows, s.posts, s.processes[i]);
    match s.processes[i]
    case Listing(platform, limit) =>
      BecomeKeeps(s, i, ListingFailed(platform, limit, Listed(s.rows, Pending, platform)));
    case ListingFailed(platform, limit, pending) =>
      BecomeKeeps(s, i, Pumping(Take(pending + Listed(s.rows, Failed, platform), limit)));
    case Pumping(queue) =>
      if queue == [] || queue[0] >= |s.rows| || IsChannel(s.rows[queue[0]]) || !Sendable(s.rows[queue[0]]) {
        BecomeKeeps(s, i, Gone);
      } else {
        BecomeKeeps(s, i, Checked(queue[0], queue[1..]));
      }
  }

  lemma PumpKeeps(s: System, i: nat, answer: Answer)
    requires Inv(s) && i < |s.processes|
    ensures Inv(PumpStep(s, i, answer))
  {
    hide Listed, Sendable;
    assert ProcessOk(s.rows, s.posts, s.processes[i]);
    match s.processes[i]
    case Listing(_, _) => QueueKeeps(s, i, answer);
    case ListingFailed(_, _, _) => QueueKeeps(s, i, answer);
    case Pumping(_) => QueueKeeps(s, i, answer);
    case Checked(id, queue) => BecomeKeeps(s, i, Counted(id, s.rows[id].attempts, queue));
    case Counted(id, n, queue) => RowStepKeeps(s, i, Marked(id, queue), id, MarkSending(s.rows[id], n));
    case Marked(id, queue) => BecomeKeeps(s, i, Ready(id, s.rows[id].attempts, queue));
    case Ready(id, n, queue) => PostStepKeeps(s, i, Returned(id, n, answer, queue), id, answer);
    case Returned(id, n, given, queue) => RowStepKeeps(s, i, Pumping(queue), id, MarkOutcome(s.rows[id], given, n));
    case _ =>
  }

  lemma RecoverAllKeeps(s: System, i: nat, ids: seq<nat>)
    requires Inv(s) && i < |s.processes| && AllGeneric(s.rows, ids)
    ensures Inv(Become(s.(rows := RecoverAll(s.rows, ids)), i, Gone))
  {
    var rows := RecoverAll(s.rows, ids);
    assert s.posts + [] == s.posts;
    forall j | 0 <= j < |rows| ensures RowOk(s.posts, rows[j]) {
      assert RowOk(s.posts, s.rows[j]);
    }
    assert ClaimsUntouched(s, i, Gone, rows, []) by {
      forall j | 0 <= j < |s.processes| && j != i && s.processes[j].Claimed?
        ensures s.processes[j].id < |s.rows| && rows[s.processes[j].id].status == Sending
      {
        assert ProcessOk(s.rows, s.posts, s.processes[j]);
      }
    }
    SteppedKeeps(s, i, Gone, rows, []);
  }

  lemma RecoveryKeeps(s: System, i: nat)
    requires Inv(s) && i < |s.processes|
    ensures Inv(RecoveryStep(s, i))
  {
    assert ProcessOk(s.rows, s.posts, s.processes[i]);
    match s.processes[i]
    case Recovering(platform) => BecomeKeeps(s, i, Selected(Stuck(s.rows, platform)));
    case Selected(ids) => RecoverAllKeeps(s, i, ids);
    case _ =>
  }

  lemma EnqueueKeeps(s: System, row: Row)
    requires Inv(s) && !IsChannel(row)
    ensures Inv(s.(rows := Create(s.rows, row)))
  {
    var rows := Create(s.rows, row);
    assert s.posts + [] == s.posts;
    forall j | 0 <= j < |s.processes| ensures ProcessOk(rows, s.posts, s.processes[j]) {
      assert ProcessOk(s.rows, s.posts, s.processes[j]);
      ProcessStays(s.rows, s.posts, rows, [], s.processes[j]);
    }
    forall j | 0 <= j < |rows| ensures RowOk(s.posts, rows[j]) {
      if j < |s.rows| { assert RowOk(s.posts, s.rows[j]); }
    }
  }

  lemma MoveKeeps(s: System, m: Move)
    requires Inv(s) && MoveOk(m)
    ensures Inv(Next(s, m))
  {
    match m
    case Spawn(p) =>
      assert forall j | 0 <= j < |s.processes| :: (s.processes + [p])[j] == s.processes[j];
    case Advance(i, answer, stored) =>
      if i < |s.processes| {
        if IsSender(s.processes[i]) { SenderKeeps(s, i, answer, stored); }
        else if s.processes[i].Recovering? || s.processes[i].Selected? { RecoveryKeeps(s, i); }
        else { PumpKeeps(s, i, answer); }
      }
    case Crash(i) => if i < |s.processes| { BecomeKeeps(s, i, Gone); }
    case Enqueue(row) => EnqueueKeeps(s, row);
    case Rebind(_) =>
  }

  const EMPTY := System([], {}, map[], [], [])

  ghost predicate IsRun(run: seq<System>, moves: seq<Move>) {
    |run| == |moves| + 1 && run[0] == EMPTY && forall i | 0 <= i < |moves| :: Moved(run, moves, i)
  }

  ghost predicate Moved(run: seq<System>, moves: seq<Move>, i: nat)
    requires |run| == |moves| + 1 && i < |moves|
  {
    MoveOk(moves[i]) && run[i + 1] == Next(run[i], moves[i])
  }

  lemma {:induction false} RunKeeps(run: seq<System>, moves: seq<Move>, n: nat)
    requires IsRun(run, moves) && n < |run|
    ensures Inv(run[n])
  {
    if n > 0 {
      hide Inv, Next, MoveOk;
      RunKeeps(run, moves, n - 1);
      assert Moved(run, moves, n - 1);
      MoveKeeps(run[n - 1], moves[n - 1]);
    }
  }

  /**
   However senders, pumps, recovery passes, rebindings and crashes interleave: the adapter is called at most once for
   the key of a channel delivery, by anyone.
   */
  lemma AtMostOnePost(run: seq<System>, moves: seq<Move>, n: nat, id: nat, a: nat, b: nat)
    requires IsRun(run, moves) && n < |run| && id < |run[n].rows| && IsChannel(run[n].rows[id])
    requires a < |run[n].posts| && b < |run[n].posts|
    requires run[n].posts[a].key == run[n].rows[id].key && run[n].posts[b].key == run[n].rows[id].key
    ensures a == b
  {
    RunKeeps(run, moves, n);
    assert run[n].posts[a].id == id && run[n].posts[b].id == id;
  }

  /** A channel row's status and message id, and every message id any sender is told, are what that one call came to. */
  lemma SentIsWhatThePostReturned(run: seq<System>, moves: seq<Move>, n: nat, a: nat)
    requires IsRun(run, moves) && n < |run| && a < |run[n].posts| && run[n].posts[a].id < |run[n].rows|
    requires IsChannel(run[n].rows[run[n].posts[a].id])
    ensures var s := run[n]; var post, row := s.posts[a], s.rows[s.posts[a].id];
            && row.key == post.key
            && (row.status == Sent ==> row.message.Some? && post.answer == Returns(row.message.value))
            && (row.status == Dead ==> post.answer == Rejects)
            && (forall i | 0 <= i < |s.processes| && s.processes[i].Told? && s.processes[i].message.Some?
                           && s.processes[i].q.MessageKey() == post.key ::
                                post.answer == Returns(s.processes[i].message.value))
  {
    RunKeeps(run, moves, n);
    var s := run[n];
    var id, row := s.posts[a].id, s.rows[s.posts[a].id];
    assert RowOk(s.posts, row);
    forall b | 0 <= b < |s.posts| && s.posts[b].key == row.key ensures b == a {
      AtMostOnePost(run, moves, n, id, a, b);
    }
    forall i | 0 <= i < |s.processes| && s.processes[i].Told? && s.processes[i].message.Some?
      && s.processes[i].q.MessageKey() == row.key
      ensures s.posts[a].answer == Returns(s.processes[i].message.value)
    {
      assert ProcessOk(s.rows, s.posts, s.processes[i]);
    }
  }

  /**
   A channel delivery without a call on record is still sending: an unclear outcome is never reported as final, nor
   retried.
   */
  lemma UnclearStaysSending(run: seq<System>, moves: seq<Move>, n: nat, id: nat)
    requires IsRun(run, moves) && n < |run| && id < |run[n].rows| && IsChannel(run[n].rows[id])
    requires forall a | 0 <= a < |run[n].posts| && run[n].posts[a].key == run[n].rows[id].key ::
               run[n].posts[a].answer.Unclear?
    ensures run[n].rows[id].status == Sending
  {
    RunKeeps(run, moves, n);
    assert RowOk(run[n].posts, run[n].rows[id]);
  }

  /** A channel row that is sent or dead never changes again, whatever runs. */
  lemma FinalChannelRowsStay(s: System, m: Move, id: nat)
    requires Inv(s) && MoveOk(m) && id < |s.rows| && IsChannel(s.rows[id]) && Final(s.rows[id])
    ensures id < |Next(s, m).rows| && Next(s, m).rows[id] == s.rows[id]
  {
    if m.Advance? && m.i < |s.processes| {
      assert ProcessOk(s.rows, s.posts, s.processes[m.i]);
    }
  }
}
