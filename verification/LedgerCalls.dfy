/**
  Calls of the table's statements, in any order and by any callers, as runs of the ledger. A
  statement may come too late, or name a claim that was never made: then it changes nothing.
 */
module LedgerCalls {
  import opened PushLedger

  /**
    What the callers keep to: time does not go back, ids and tokens are drawn afresh, limits
    are kept, and the count that a statement passes is the one that its claim returned.
   */
  ghost predicate Proper(s: State, e: Event) {
    e.now >= s.clock
    && match e.op
       case Insert(id, _, _, _) => id !in s.ever
       case ClaimSend(ids, token) => |ids| <= SEND_BATCH && FreshToken(s, token)
       case ClaimReceipts(ids, token) => |ids| <= RECEIPT_BATCH && FreshToken(s, token)
       case Retry(c, attempts) => c in s.issued && s.issued[c].ForSend? ==> attempts == s.issued[c].attempts
       case Reschedule(c, _, polls, checked) =>
         s.clock <= checked <= e.now && (c in s.issued && s.issued[c].ForReceipt? ==> polls == s.issued[c].polls)
       case Cleanup(ids, _) => |ids| <= CLEANUP_BATCH
       case _ => true
  }

  /** A statement that its claim does not allow finds no row. */
  lemma ImproperIsVoid(s: State, e: Event)
    requires Inv(s) && Proper(s, e) && !Enabled(s, e)
    ensures RowsAfter(s.rows, e) == s.rows
  {
    forall id | id in s.rows ensures RowAfter(id, s.rows[id], e) == s.rows[id] {
      assert RowOk(s.rows[id], s.clock) && ClaimKnown(s.issued, id, s.rows[id]);
    }
  }

  /** Time goes on and nothing is done. */
  function Nothing(now: int): Event {
    Event(Cleanup({}, {}), now)
  }

  lemma NothingDone(s: State, now: int)
    requires now >= s.clock
    ensures Enabled(s, Nothing(now)) && Next(s, Nothing(now)).rows == s.rows
  {
  }

  ghost function EventOf(s: State, call: Event): Event {
    if Enabled(s, call) then call else Nothing(call.now)
  }

  lemma CallMoves(s: State, call: Event)
    requires Inv(s) && Proper(s, call)
    ensures Enabled(s, EventOf(s, call)) && Inv(Next(s, EventOf(s, call)))
    ensures Next(s, EventOf(s, call)).rows == RowsAfter(s.rows, call)
  {
    if !Enabled(s, call) {
      ImproperIsVoid(s, call);
      NothingDone(s, call.now);
    }
    EventKeepsInv(s, EventOf(s, call));
  }

  /** Call `k` is a proper one, and `states` records the claims made and the ids used so far. */
  ghost predicate Called(states: seq<State>, calls: seq<Event>, k: nat)
    requires k < |calls| && |states| == |calls| + 1
  {
    Proper(states[k], calls[k]) && states[k + 1] == Next(states[k], EventOf(states[k], calls[k]))
  }

  ghost predicate Calls(states: seq<State>, calls: seq<Event>) {
    && |states| == |calls| + 1
    && states[0] == EMPTY
    && forall k | 0 <= k < |calls| :: Called(states, calls, k)
  }

  lemma {:induction false} CallsKeepInv(states: seq<State>, calls: seq<Event>, n: nat)
    requires Calls(states, calls) && n <= |calls|
    ensures Inv(states[n])
  {
    if n > 0 {
      CallsKeepInv(states, calls, n - 1);
      assert Called(states, calls, n - 1);
      CallMoves(states[n - 1], calls[n - 1]);
    }
  }

  lemma CallStep(states: seq<State>, calls: seq<Event>, k: nat)
    requires Calls(states, calls) && k < |calls|
    ensures Enabled(states[k], EventOf(states[k], calls[k])) && states[k + 1] == Next(states[k], EventOf(states[k], calls[k]))
    ensures states[k + 1].rows == RowsAfter(states[k].rows, calls[k])
  {
    CallsKeepInv(states, calls, k);
    assert Called(states, calls, k);
    CallMoves(states[k], calls[k]);
  }

  ghost predicate TableMoves(tables: seq<Rows>, calls: seq<Event>, k: nat)
    requires k < |calls| && |tables| == |calls| + 1
  {
    tables[k + 1] == RowsAfter(tables[k], calls[k])
  }

  lemma {:induction false} TablesAreLedgers(states: seq<State>, tables: seq<Rows>, calls: seq<Event>, n: nat)
    requires Calls(states, calls) && |tables| == |calls| + 1 && tables[0] == map[] && n <= |calls|
    requires forall k | 0 <= k < |calls| :: TableMoves(tables, calls, k)
    ensures states[n].rows == tables[n]
  {
    if n > 0 {
      TablesAreLedgers(states, tables, calls, n - 1);
      CallStep(states, calls, n - 1);
      assert TableMoves(tables, calls, n - 1);
    }
  }

  /** Whatever statements are called on an empty table, the tables are those of a run of the ledger, moment by moment. */
  lemma CallsAreARun(states: seq<State>, tables: seq<Rows>, calls: seq<Event>) returns (events: seq<Event>)
    requires Calls(states, calls) && |tables| == |calls| + 1 && tables[0] == map[]
    requires forall k | 0 <= k < |calls| :: TableMoves(tables, calls, k)
    ensures Run(states, events) && |events| == |calls|
    ensures forall k | 0 <= k <= |calls| :: states[k].rows == tables[k]
  {
    events := seq(|calls|, k requires 0 <= k < |calls| => EventOf(states[k], calls[k]));
    forall k | 0 <= k < |calls| ensures Moves(states, events, k) {
      CallStep(states, calls, k);
    }
    forall k | 0 <= k <= |calls| ensures states[k].rows == tables[k] {
      TablesAreLedgers(states, tables, calls, k);
    }
  }
}
