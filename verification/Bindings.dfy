/**
 Channel bindings: a table of active rows beside an append-only log of bound and released events.

 A call first checks (`CheckBind`, `CheckRelease`) and then writes the event and the row in one savepoint (`Write`).
 Any number of calls may check before any of them writes.
 */
module Bindings {
  import opened Text

  type Channel = (string, string)

  datatype Kind = Bound | Released

  /** What a binding event records; events of other kinds only matter for the keys they use up. */
  datatype Change = Change(kind: Kind, channel: Channel, workspace: string, reason: string)

  datatype Event = Event(key: string, change: Option<Change>)

  type Log = seq<Event>

  type Table = map<Channel, string>

  datatype State = State(log: Log, table: Table)

  // ---------------------------------------------------------------- the log's meaning

  function Follow(table: Table, c: Change): Table {
    match c.kind
    case Bound => table[c.channel := c.workspace]
    case Released => table - {c.channel}
  }

  /** The bindings a log leaves active: its bound and released events in order. */
  function Active(log: Log): Table {
    if log == [] then map[] else
      var last := log[|log| - 1];
      var before := Active(log[..|log| - 1]);
      if last.change.None? then before else Follow(before, last.change.value)
  }

  /**
   May this change happen to these bindings?  A channel is bound only when free, and released only from its own
   workspace.
   */
  predicate Lawful(table: Table, c: Change) {
    match c.kind
    case Bound => c.channel !in table
    case Released => c.channel in table && table[c.channel] == c.workspace
  }

  predicate LawfulAt(log: Log, n: nat)
    requires n < |log|
  {
    log[n].change.Some? ==> Lawful(Active(log[..n]), log[n].change.value)
  }

  predicate LawfulLog(log: Log) {
    forall n | 0 <= n < |log| :: LawfulAt(log, n)
  }

  function FindKey(log: Log, key: string): (e: Option<Event>)
    ensures e.Some? ==> e.value in log && e.value.key == key
    ensures e.None? ==> forall x | x in log :: x.key != key
  {
    if log == [] then None else
      var earlier := FindKey(log[..|log| - 1], key);
      if earlier.Some? then earlier else if log[|log| - 1].key == key then Some(log[|log| - 1]) else None
  }

  // ---------------------------------------------------------------- the two halves of a call

  datatype Error = UnknownWorkspace | KeyConflict | BoundElsewhere | RowChanged | RowTaken

  datatype Receipt = Replayed | AlreadyBound | AlreadyUnbound | Done(kind: Kind)

  /** The outcome of the checks: an answer, or a change to write under a key. */
  datatype Verdict = Answer(receipt: Receipt) | Proceed

  /** An existing event under the key must be this very change; the actor is not compared. */
  function CheckKey(log: Log, key: string, c: Change): Result<Option<Receipt>, Error> {
    var prior := FindKey(log, key);
    if prior.None? then Ok(None) else if prior.value.change == Some(c) then Ok(Some(Replayed)) else Err(KeyConflict)
  }

  datatype Call = Call(key: string, change: Change)

  function Check(s: State, known: set<string>, call: Call): Result<Verdict, Error> {
    var c := call.change;
    if c.workspace !in known then Err(UnknownWorkspace) else
      match CheckKey(s.log, call.key, c)
      case Err(e) => Err(e)
      case Ok(Some(receipt)) => Ok(Answer(receipt))
      case Ok(None) =>
        match c.kind
        case Bound =>
          if c.channel !in s.table then Ok(Proceed)
          else if s.table[c.channel] == c.workspace then Ok(Answer(AlreadyBound)) else Err(BoundElsewhere)
        case Released =>
          if c.channel !in s.table then Ok(Answer(AlreadyUnbound))
          else if s.table[c.channel] == c.workspace then Ok(Proceed) else Err(BoundElsewhere)
  }

  /** The savepoint: append the event, then insert or compare-and-delete the row; any failure undoes both. */
  function Write(s: State, call: Call): (State, Result<Receipt, Error>) {
    var c := call.change;
    match CheckKey(s.log, call.key, c)
    case Err(e) => (s, Err(e))
    case Ok(Some(receipt)) => (s, Ok(receipt))
    case Ok(None) =>
      if c.kind.Bound? && c.channel in s.table then (s, Err(RowTaken))
      else if c.kind.Released? && (c.channel !in s.table || s.table[c.channel] != c.workspace) then (s, Err(RowChanged))
      else (State(s.log + [Event(call.key, Some(c))], Follow(s.table, c)), Ok(Done(c.kind)))
  }

  // ---------------------------------------------------------------- the store object

  class Store {
    var events: Log
    var rows: Table

    function Contents(): State
      reads this
    {
      State(events, rows)
    }

    constructor ()
      ensures Contents() == State([], map[])
    {
      events, rows := [], map[];
    }

    method EventByKey(key: string) returns (e: Option<Event>)
      ensures e == FindKey(events, key)
    {
      e := None;
      for n := 0 to |events|
        invariant e == FindKey(events[..n], key)
      {
        assert events[..n + 1][..n] == events[..n];
        if e.None? && events[n].key == key {
          e := Some(events[n]);
        }
      }
      assert events[..|events|] == events;
    }

    /** The checks of both calls. */
    method CheckChange(known: set<string>, call: Call) returns (r: Result<Verdict, Error>)
      ensures r == Check(Contents(), known, call)
    {
      var c := call.change;
      if c.workspace !in known {
        return Err(UnknownWorkspace);
      }
      var prior := EventByKey(call.key);
      if prior.Some? {
        return if prior.value.change == Some(c) then Ok(Answer(Replayed)) else Err(KeyConflict);
      }
      if c.channel !in rows {
        return Ok(if c.kind.Bound? then Proceed else Answer(AlreadyUnbound));
      }
      if rows[c.channel] != c.workspace {
        return Err(BoundElsewhere);
      }
      return Ok(if c.kind.Bound? then Answer(AlreadyBound) else Proceed);
    }

    /** The savepoint of a bind: the event first, then the row; a taken primary key rolls the event back. */
    method WriteBind(call: Call) returns (r: Result<Receipt, Error>)
      requires call.change.kind.Bound?
      modifies this
      ensures (Contents(), r) == Write(old(Contents()), call)
    {
      var prior := EventByKey(call.key);
      if prior.Some? {
        return if prior.value.change == Some(call.change) then Ok(Replayed) else Err(KeyConflict);
      }
      var savepoint := events;
      events := events + [Event(call.key, Some(call.change))];
      if call.change.channel in rows {
        events := savepoint;
        return Err(RowTaken);
      }
      rows := rows[call.change.channel := call.change.workspace];
      return Ok(Done(Bound));
    }

    /** The savepoint of a release: the event first, then delete the row if it is still the expected one. */
    method WriteRelease(call: Call) returns (r: Result<Receipt, Error>)
      requires call.change.kind.Released?
      modifies this
      ensures (Contents(), r) == Write(old(Contents()), call)
    {
      var prior := EventByKey(call.key);
      if prior.Some? {
        return if prior.value.change == Some(call.change) then Ok(Replayed) else Err(KeyConflict);
      }
      var savepoint := events;
      events := events + [Event(call.key, Some(call.change))];
      if call.change.channel !in rows || rows[call.change.channel] != call.change.workspace {
        events := savepoint;
        return Err(RowChanged);
      }
      rows := rows - {call.change.channel};
      return Ok(Done(Released));
    }
  }

  // ---------------------------------------------------------------- interleaved runs

  datatype Move =
    | Checks(known: set<string>, call: Call)
    | Writes(i: nat)
    | Elsewhere(key: string)

  /** `passed` holds the calls whose checks let them proceed; they may write at any later time. */
  datatype System = System(state: State, passed: seq<Call>)

  function Next(s: System, m: Move): System {
    match m
    case Checks(known, call) =>
      if Check(s.state, known, call) == Ok(Proceed) then s.(passed := s.passed + [call]) else s
    case Writes(i) => if i < |s.passed| then s.(state := Write(s.state, s.passed[i]).0) else s
    case Elsewhere(key) =>
      if FindKey(s.state.log, key).Some? then s else s.(state := s.state.(log := s.state.log + [Event(key, None)]))
  }

  ghost predicate IsRun(run: seq<System>, moves: seq<Move>) {
    && |run| == |moves| + 1 && run[0] == System(State([], map[]), [])
    && forall i | 0 <= i < |moves| :: Moved(run, moves, i)
  }

  ghost predicate Moved(run: seq<System>, moves: seq<Move>, i: nat)
    requires |run| == |moves| + 1 && i < |moves|
  {
    run[i + 1] == Next(run[i], moves[i])
  }

  predicate Inv(s: State) {
    s.table == Active(s.log) && LawfulLog(s.log)
  }

  lemma AppendKeeps(s: State, e: Event)
    requires Inv(s) && (e.change.Some? ==> Lawful(s.table, e.change.value))
    ensures LawfulLog(s.log + [e])
    ensures Active(s.log + [e]) == if e.change.None? then s.table else Follow(s.table, e.change.value)
  {
    var log := s.log + [e];
    assert log[..|s.log|] == s.log;
    forall n | 0 <= n < |log| ensures LawfulAt(log, n) {
      if n < |s.log| {
        assert LawfulAt(s.log, n) && log[..n] == s.log[..n];
      }
    }
  }

  lemma WriteKeeps(s: State, call: Call)
    requires Inv(s)
    ensures Inv(Write(s, call).0)
  {
    if Lawful(s.table, call.change) {
      AppendKeeps(s, Event(call.key, Some(call.change)));
    }
  }

  lemma MoveKeeps(s: System, m: Move)
    requires Inv(s.state)
    ensures Inv(Next(s, m).state)
  {
    match m
    case Checks(_, _) =>
    case Writes(i) => if i < |s.passed| { WriteKeeps(s.state, s.passed[i]); }
    case Elsewhere(key) => AppendKeeps(s.state, Event(key, None));
  }

  /**
   However checks and writes of any calls interleave: the active rows are exactly the log's bound and released events in
   order, and the log is lawful, each bind on a free channel, each release from the workspace then bound.
   */
  lemma {:induction false} TableIsTheLog(run: seq<System>, moves: seq<Move>, n: nat)
    requires IsRun(run, moves) && n < |run|
    ensures run[n].state.table == Active(run[n].state.log) && LawfulLog(run[n].state.log)
  {
    if n > 0 {
      TableIsTheLog(run, moves, n - 1);
      assert Moved(run, moves, n - 1);
      MoveKeeps(run[n - 1], moves[n - 1]);
    }
  }

  /** A key is used by one event for ever, so its calls, repeated at any later time, change nothing. */
  lemma {:induction false} RecordedKeyIsSpent(run: seq<System>, moves: seq<Move>, n: nat, m: nat, call: Call)
    requires IsRun(run, moves) && n <= m < |run| && FindKey(run[n].state.log, call.key).Some?
    ensures FindKey(run[m].state.log, call.key) == FindKey(run[n].state.log, call.key)
    ensures Write(run[m].state, call).0 == run[m].state
    ensures forall known :: Check(run[m].state, known, call) != Ok(Proceed)
  {
    if n < m {
      RecordedKeyIsSpent(run, moves, n, m - 1, call);
      assert Moved(run, moves, m - 1);
      LogGrows(run[m - 1], moves[m - 1], call.key);
    }
  }

  lemma LogGrows(s: System, m: Move, key: string)
    requires FindKey(s.state.log, key).Some?
    ensures FindKey(Next(s, m).state.log, key) == FindKey(s.state.log, key)
  {
    var log, next := s.state.log, Next(s, m).state.log;
    if next != log {
      assert next[..|next| - 1] == log;
    }
  }

  predicate Releases(e: Event, channel: Channel, workspace: string) {
    e.change.Some? && e.change.value.kind.Released? && e.change.value.channel == channel
      && e.change.value.workspace == workspace
  }

  lemma {:induction false} StaysBound(log: Log, i: nat, j: nat, channel: Channel, workspace: string)
    requires i <= j <= |log| && channel in Active(log[..i]) && Active(log[..i])[channel] == workspace && LawfulLog(log)
    requires forall k | i <= k < j :: !Releases(log[k], channel, workspace)
    ensures channel in Active(log[..j]) && Active(log[..j])[channel] == workspace
  {
    if i < j {
      StaysBound(log, i, j - 1, channel, workspace);
      assert LawfulAt(log, j - 1) && log[..j][..j - 1] == log[..j - 1];
    }
  }

  /** Between two binds of a channel lies a release of it, from the workspace the first one bound. */
  lemma BindsAlternate(log: Log, i: nat, j: nat, c: Change, d: Change)
    requires LawfulLog(log) && i < j < |log| && log[i].change == Some(c) && log[j].change == Some(d)
    requires c.kind.Bound? && d.kind.Bound? && c.channel == d.channel
    ensures exists k :: i < k < j && Releases(log[k], c.channel, c.workspace)
  {
    assert LawfulAt(log, j);
    assert log[..i + 1][..i] == log[..i];
    if forall k | i < k < j :: !Releases(log[k], c.channel, c.workspace) {
      StaysBound(log, i + 1, j, c.channel, c.workspace);
    }
  }

  /**
   A release that was once recorded and is replayed at any later time, whoever has bound its channel since, changes
   neither log nor table: it answers `replayed`, or a key conflict if its parameters differ.
   */
  lemma ReplayedReleaseSparesRebind(run: seq<System>, moves: seq<Move>, n: nat, m: nat, call: Call)
    requires IsRun(run, moves) && n <= m < |run| && call.change.kind.Released?
    requires FindKey(run[n].state.log, call.key).Some?
    ensures var r := Write(run[m].state, call);
            && r.0 == run[m].state
            && r.1 == if FindKey(run[n].state.log, call.key).value.change == Some(call.change) then Ok(Replayed)
                 else Err(KeyConflict)
  {
    RecordedKeyIsSpent(run, moves, n, m, call);
  }

  lemma RecordedByWrite(s: State, call: Call)
    ensures Write(s, call).1 == Ok(Done(call.change.kind)) <==> Write(s, call).0 != s
    ensures Write(s, call).0 != s ==>
              FindKey(s.log, call.key).None? && Write(s, call).0.log == s.log + [Event(call.key, Some(call.change))]
  {
  }

  /** Move `n` is a write of this key and change that answered `bound` or `released`. */
  predicate AnswersDone(run: seq<System>, moves: seq<Move>, n: nat, call: Call)
    requires |run| == |moves| + 1 && n < |moves|
  {
    && moves[n].Writes? && moves[n].i < |run[n].passed| && run[n].passed[moves[n].i] == call
    && Write(run[n].state, call).1 == Ok(Done(call.change.kind))
  }

  /** What was answered as done is on record ever after, and the same call is then answered `replayed`. */
  lemma DoneIsReplayed(run: seq<System>, moves: seq<Move>, n: nat, m: nat, call: Call)
    requires IsRun(run, moves) && n < m < |run| && AnswersDone(run, moves, n, call)
    ensures FindKey(run[m].state.log, call.key) == Some(Event(call.key, Some(call.change)))
    ensures Write(run[m].state, call) == (run[m].state, Ok(Replayed))
  {
    RecordedByWrite(run[n].state, call);
    assert Moved(run, moves, n);
    var next := run[n + 1].state.log;
    assert next[..|next| - 1] == run[n].state.log;
    RecordedKeyIsSpent(run, moves, n + 1, m, call);
  }

  /** And `replayed` is answered only for what an earlier write answered as done. */
  lemma {:induction false} ReplayedWasDone(run: seq<System>, moves: seq<Move>, m: nat, call: Call) returns (n: nat)
    requires IsRun(run, moves) && m < |run| && Write(run[m].state, call).1 == Ok(Replayed)
    ensures n < m && AnswersDone(run, moves, n, call)
  {
    assert FindKey(run[m].state.log, call.key) == Some(Event(call.key, Some(call.change)));
    n := RecordedAt(run, moves, m, call);
  }

  lemma {:induction false} RecordedAt(run: seq<System>, moves: seq<Move>, m: nat, call: Call) returns (n: nat)
    requires IsRun(run, moves) && m < |run|
    requires FindKey(run[m].state.log, call.key) == Some(Event(call.key, Some(call.change)))
    ensures n < m && AnswersDone(run, moves, n, call)
  {
    assert m > 0;
    assert Moved(run, moves, m - 1);
    if FindKey(run[m - 1].state.log, call.key).Some? {
      LogGrows(run[m - 1], moves[m - 1], call.key);
      n := RecordedAt(run, moves, m - 1, call);
    } else {
      n := m - 1;
      var next := run[m].state.log;
      assert next[..|next| - 1] == run[n].state.log;
      RecordedByWrite(run[n].state, run[n].passed[moves[n].i]);
    }
  }
}
