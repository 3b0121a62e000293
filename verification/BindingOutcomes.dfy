/** What the calls on channel bindings answer and change, said from the log alone, in every reachable state. */
module BindingOutcomes {
  import opened Text
  import opened Bindings

  predicate KeysUnique(log: Log) {
    forall i, j | 0 <= i < j < |log| :: log[i].key != log[j].key
  }

  predicate KeyUsed(log: Log, key: string) {
    exists i :: 0 <= i < |log| && log[i].key == key
  }

  /** The log holds this very change under this key. */
  predicate Holds(log: Log, call: Call) {
    exists i :: 0 <= i < |log| && log[i] == Event(call.key, Some(call.change))
  }

  lemma WriteKeepsKeys(s: State, call: Call)
    requires KeysUnique(s.log)
    ensures KeysUnique(Write(s, call).0.log)
  {
    assert FindKey(s.log, call.key).None? ==> forall i | 0 <= i < |s.log| :: s.log[i] in s.log;
    hide FindKey;
  }

  /** An idempotency key stands in the log at most once. */
  lemma {:induction false} KeysStayUnique(run: seq<System>, moves: seq<Move>, n: nat)
    requires IsRun(run, moves) && n < |run|
    ensures KeysUnique(run[n].state.log)
  {
    if n > 0 {
      hide KeysUnique, Check, Write;
      KeysStayUnique(run, moves, n - 1);
      assert Moved(run, moves, n - 1);
      var s, m := run[n - 1], moves[n - 1];
      match m
      case Checks(_, _) =>
      case Writes(i) => if i < |s.passed| { WriteKeepsKeys(s.state, s.passed[i]); }
      case Elsewhere(key) => ElsewhereKeepsKeys(s.state.log, key);
    } else {
      assert run[0].state.log == [];
    }
  }

  lemma ElsewhereKeepsKeys(log: Log, key: string)
    requires KeysUnique(log)
    ensures FindKey(log, key).None? ==> KeysUnique(log + [Event(key, None)])
  {
    assert FindKey(log, key).None? ==> forall i | 0 <= i < |log| :: log[i] in log;
    hide FindKey;
  }

  lemma KeyExactly(log: Log, call: Call)
    requires KeysUnique(log)
    ensures CheckKey(log, call.key, call.change) ==
              if !KeyUsed(log, call.key) then Ok(None)
              else if Holds(log, call) then Ok(Some(Replayed)) else Err(KeyConflict)
  {
    var prior := FindKey(log, call.key);
    assert forall i | 0 <= i < |log| :: log[i] in log;
    hide FindKey;
    if prior.Some? {
      var i :| 0 <= i < |log| && log[i] == prior.value;
    }
  }

  /**
   The check of a bind or release: a key in use is answered by its event; else a free channel, by the log, may be bound
   and has nothing to release, the call's own may be released and is bound already, and another's is refused.
   */
  lemma CheckedExactly(run: seq<System>, moves: seq<Move>, n: nat, known: set<string>, call: Call)
    requires IsRun(run, moves) && n < |run|
    ensures var log, c, d := run[n].state.log, call.change, Check(run[n].state, known, call);
            var bound := Active(log);
            d == if c.workspace !in known then Err(UnknownWorkspace)
                 else if Holds(log, call) then Ok(Answer(Replayed))
                 else if KeyUsed(log, call.key) then Err(KeyConflict)
                 else if c.channel !in bound then (if c.kind == Bound then Ok(Proceed) else Ok(Answer(AlreadyUnbound)))
                 else if bound[c.channel] != c.workspace then Err(BoundElsewhere)
                 else if c.kind == Bound then Ok(Answer(AlreadyBound)) else Ok(Proceed)
  {
    TableIsTheLog(run, moves, n);
    KeysStayUnique(run, moves, n);
    KeyExactly(run[n].state.log, call);
    hide CheckKey, Active;
  }

  /**
   The write: under a new key a bind lands exactly if the channel is then free, a release exactly if it is then bound to
   the call's workspace.  A write that lands records the change and leaves every other channel as it was; any other
   leaves everything.
   */
  lemma WrittenExactly(run: seq<System>, moves: seq<Move>, n: nat, call: Call)
    requires IsRun(run, moves) && n < |run|
    ensures var log, c, w := run[n].state.log, call.change, Write(run[n].state, call);
            var bound := Active(log);
            if KeyUsed(log, call.key)
            then w == (run[n].state, if Holds(log, call) then Ok(Replayed) else Err(KeyConflict))
            else if c.kind == Bound && c.channel !in bound
            then && w.1 == Ok(Done(Bound)) && w.0.log == log + [Event(call.key, Some(c))]
                 && w.0.table == bound[c.channel := c.workspace]
            else if c.kind == Released && c.channel in bound && bound[c.channel] == c.workspace
            then && w.1 == Ok(Done(Released)) && w.0.log == log + [Event(call.key, Some(c))]
                 && w.0.table == bound - {c.channel}
            else w == (run[n].state, Err(if c.kind == Bound then RowTaken else RowChanged))
  {
    TableIsTheLog(run, moves, n);
    KeysStayUnique(run, moves, n);
    KeyExactly(run[n].state.log, call);
    hide CheckKey, Active;
  }

  /** A call that checks and writes with nobody in between. */
  function CallAlone(s: System, known: set<string>, call: Call): System {
    Next(Next(s, Checks(known, call)), Writes(|s.passed|))
  }

  /**
   From any reachable state, a call alone under a new key: a known workspace gets a free channel and gives up its own,
   and nothing else happens to any channel.
   */
  lemma CallLandsAlone(run: seq<System>, moves: seq<Move>, n: nat, known: set<string>, call: Call)
    requires IsRun(run, moves) && n < |run| && !KeyUsed(run[n].state.log, call.key)
    ensures var c, bound := call.change, Active(run[n].state.log);
            CallAlone(run[n], known, call).state.table ==
              if c.workspace !in known then bound
              else if c.kind == Bound then (if c.channel in bound then bound else bound[c.channel := c.workspace])
              else if c.channel in bound && bound[c.channel] == c.workspace then bound - {c.channel} else bound
  {
    TableIsTheLog(run, moves, n);
    CheckedExactly(run, moves, n, known, call);
    WrittenExactly(run, moves, n, call);
    hide Check, Write, Active, KeyUsed, Holds;
  }
}
