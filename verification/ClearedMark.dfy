/** When the cleared mark of a member goes down: exactly when a clearing that looked earlier is written over one that looked later. */
module ClearedMark {
  import opened Basics
  import opened ChatCursors

  function Mark(g: Group, id: MemberId): Sequence {
    if id in g.members then g.members[id].cleared.GetOr(0) else 0
  }

  ghost predicate IsLook(steps: seq<Step>, i: nat, op: OpId) {
    i < |steps| && steps[i].Look? && steps[i].op == op
  }

  /** Step `k` writes a clearing of the member's account. */
  ghost predicate Clears(states: seq<Group>, steps: seq<Step>, k: nat, id: MemberId) {
    && k < |steps| && k < |states| && steps[k].Clear?
    && id in states[k].members && states[k].members[id].account == steps[k].account
  }

  /** The clearing that `k` writes looked before the one that `l` wrote, and a message above what it found has come between. */
  ghost predicate Outdated(steps: seq<Step>, l: nat, k: nat) {
    && l < k < |steps| && steps[l].Clear? && steps[k].Clear?
    && exists i: nat, j: nat :: i < j && IsLook(steps, i, steps[k].op) && IsLook(steps, j, steps[l].op) && steps[i].found < steps[j].found
  }

  ghost predicate WrittenLast(states: seq<Group>, steps: seq<Step>, l: nat, k: nat, id: MemberId) {
    l < k && Clears(states, steps, l, id) && forall m | l < m < k :: !Clears(states, steps, m, id)
  }

  // ----- Lookups --------------------------------------------------------------------------------------

  lemma StepKeepsLookups(g: Group, s: Step, op: OpId)
    requires Enabled(g, s)
    ensures op in g.looked ==>
              op in Next(g, s).looked && Next(g, s).looked[op] == g.looked[op].(done := Next(g, s).looked[op].done)
    ensures op !in g.looked && op in Next(g, s).looked ==>
              s.Look? && s.op == op && Next(g, s).looked[op].found == s.found && Next(g, s).looked[op].deletedToo == s.deletedToo
  {
  }

  /** What an operation found is what its look found. */
  lemma {:induction false} FoundByLook(states: seq<Group>, steps: seq<Step>, n: nat, op: OpId) returns (i: nat)
    requires Run(states, steps) && n <= |steps| && op in states[n].looked
    ensures i < n && IsLook(steps, i, op)
    ensures steps[i].found == states[n].looked[op].found && steps[i].deletedToo == states[n].looked[op].deletedToo
  {
    assert Moves(states, steps, n - 1);
    StepKeepsLookups(states[n - 1], steps[n - 1], op);
    if op in states[n - 1].looked {
      i := FoundByLook(states, steps, n - 1, op);
    } else {
      i := n - 1;
    }
  }

  lemma {:induction false} LookedSince(states: seq<Group>, steps: seq<Step>, i: nat, n: nat, op: OpId)
    requires Run(states, steps) && i < n <= |steps| && IsLook(steps, i, op)
    ensures op in states[n].looked
  {
    assert Moves(states, steps, n - 1);
    StepKeepsLookups(states[n - 1], steps[n - 1], op);
    if i < n - 1 {
      LookedSince(states, steps, i, n - 1, op);
    }
  }

  lemma LooksOnce(states: seq<Group>, steps: seq<Step>, i: nat, j: nat, op: OpId)
    requires Run(states, steps) && IsLook(steps, i, op) && IsLook(steps, j, op)
    ensures i == j
  {
    assert Moves(states, steps, i) && Moves(states, steps, j);
    if i < j {
      LookedSince(states, steps, i, j, op);
    } else if j < i {
      LookedSince(states, steps, j, i, op);
    }
  }

  lemma StepKeepsMessages(g: Group, s: Step)
    requires Enabled(g, s)
    ensures g.messages.Keys <= Next(g, s).messages.Keys
  {
  }

  lemma {:induction false} MessagesStay(states: seq<Group>, steps: seq<Step>, i: nat, j: nat)
    requires Run(states, steps) && i <= j <= |steps|
    ensures states[i].messages.Keys <= states[j].messages.Keys
  {
    if i < j {
      MessagesStay(states, steps, i, j - 1);
      assert Moves(states, steps, j - 1);
      StepKeepsMessages(states[j - 1], steps[j - 1]);
    }
  }

  /** Of two looks that count deleted messages, the later finds at least as much. */
  lemma LaterFindsMore(states: seq<Group>, steps: seq<Step>, i: nat, j: nat)
    requires Run(states, steps) && i <= j < |steps| && steps[i].Look? && steps[j].Look?
    requires steps[i].deletedToo && steps[j].deletedToo
    ensures steps[i].found <= steps[j].found
  {
    MessagesStay(states, steps, i, j);
    assert Moves(states, steps, i) && Moves(states, steps, j);
    assert steps[i].found == 0 || steps[i].found in states[j].messages;
  }

  // ----- The mark is what the last clearing found ---------------------------------------------------------

  /** The look of the clearing that step `k` writes, which leaves the mark at what it found. */
  lemma ClearingLooked(states: seq<Group>, steps: seq<Step>, k: nat, id: MemberId) returns (i: nat)
    requires Run(states, steps) && Clears(states, steps, k, id)
    ensures i < k && IsLook(steps, i, steps[k].op) && steps[i].deletedToo
    ensures Mark(states[k + 1], id) == steps[i].found
  {
    assert Moves(states, steps, k);
    i := FoundByLook(states, steps, k, steps[k].op);
  }

  /** No other step moves the mark of a member. */
  lemma OnlyClearingsMark(g: Group, s: Step, id: MemberId)
    requires Enabled(g, s) && id in g.members && !(s.Clear? && s.account == g.members[id].account)
    ensures id in Next(g, s).members && Next(g, s).members[id].cleared == g.members[id].cleared
  {
  }

  lemma StepKeepsAccount(g: Group, s: Step, id: MemberId)
    requires Enabled(g, s)
    ensures id in g.members ==> id in Next(g, s).members && Next(g, s).members[id].account == g.members[id].account
    ensures id !in g.members && id in Next(g, s).members ==> Next(g, s).members[id].cleared.None?
  {
  }

  /** Either no clearing of the account was written since the member joined, or the mark is what the last one found. */
  lemma {:induction false} MarkIsLastFound(states: seq<Group>, steps: seq<Step>, n: nat, id: MemberId) returns (last: Option<nat>)
    requires Run(states, steps) && n <= |steps|
    ensures last.None? ==> Mark(states[n], id) == 0 && forall m: nat | m < n :: !Clears(states, steps, m, id)
    ensures last.Some? ==> WrittenLast(states, steps, last.value, n, id) && Mark(states[n], id) == Mark(states[last.value + 1], id)
  {
    if n == 0 {
      last := None;
    } else {
      last := MarkIsLastFound(states, steps, n - 1, id);
      assert Moves(states, steps, n - 1);
      StepKeepsAccount(states[n - 1], steps[n - 1], id);
      if Clears(states, steps, n - 1, id) {
        last := Some(n - 1);
      } else if id in states[n - 1].members {
        OnlyClearingsMark(states[n - 1], steps[n - 1], id);
      }
    }
  }

  // ----- When the mark goes down ---------------------------------------------------------------------------

  /** Of two clearings the one written later leaves a smaller mark exactly when it is outdated. */
  lemma SmallerExactly(states: seq<Group>, steps: seq<Step>, l: nat, k: nat, id: MemberId)
    requires Run(states, steps) && l < k && Clears(states, steps, l, id) && Clears(states, steps, k, id)
    ensures Mark(states[k + 1], id) < Mark(states[l + 1], id) <==> Outdated(steps, l, k)
  {
    var i := ClearingLooked(states, steps, k, id);
    var j := ClearingLooked(states, steps, l, id);
    if steps[i].found < steps[j].found {
      if j <= i {
        LaterFindsMore(states, steps, j, i);
      }
      assert i < j;
    }
    forall x: nat, y: nat | IsLook(steps, x, steps[k].op) && IsLook(steps, y, steps[l].op) ensures x == i && y == j {
      LooksOnce(states, steps, x, i, steps[k].op);
      LooksOnce(states, steps, y, j, steps[l].op);
    }
  }

  /**
    A step lowers the mark of a member if and only if it writes a clearing of the account and the
    clearing written last before it had looked later and found more.
   */
  lemma LoweredExactly(states: seq<Group>, steps: seq<Step>, k: nat, id: MemberId)
    requires Run(states, steps) && k < |steps|
    ensures Mark(states[k + 1], id) < Mark(states[k], id)
       <==> Clears(states, steps, k, id) && exists l: nat :: WrittenLast(states, steps, l, k, id) && Outdated(steps, l, k)
  {
    assert Moves(states, steps, k);
    var last := MarkIsLastFound(states, steps, k, id);
    StepKeepsAccount(states[k], steps[k], id);
    if !Clears(states, steps, k, id) {
      if id in states[k].members {
        OnlyClearingsMark(states[k], steps[k], id);
      }
    } else if last.Some? {
      SmallerExactly(states, steps, last.value, k, id);
      assert forall l | WrittenLast(states, steps, l, k, id) :: l == last.value;
    }
  }

  lemma {:induction false} SomeStepLowers(states: seq<Group>, steps: seq<Step>, i: nat, j: nat, id: MemberId) returns (k: nat)
    requires Run(states, steps) && i <= j <= |steps| && Mark(states[j], id) < Mark(states[i], id)
    ensures i <= k < j && Mark(states[k + 1], id) < Mark(states[k], id)
  {
    if Mark(states[j], id) < Mark(states[j - 1], id) {
      k := j - 1;
    } else {
      k := SomeStepLowers(states, steps, i, j - 1, id);
    }
  }

  /** In a run the mark of a member goes down at some step if and only if some clearing of the account is outdated when it is written. */
  lemma EverLoweredExactly(states: seq<Group>, steps: seq<Step>, id: MemberId)
    requires Run(states, steps)
    ensures (exists k: nat :: k < |steps| && Mark(states[k + 1], id) < Mark(states[k], id))
       <==> exists l: nat, k: nat :: Clears(states, steps, l, id) && Clears(states, steps, k, id) && Outdated(steps, l, k)
  {
    if k: nat :| k < |steps| && Mark(states[k + 1], id) < Mark(states[k], id) {
      LoweredExactly(states, steps, k, id);
    }
    if l: nat, k: nat :| Clears(states, steps, l, id) && Clears(states, steps, k, id) && Outdated(steps, l, k) {
      SmallerExactly(states, steps, l, k, id);
      var m := SomeStepLowers(states, steps, l + 1, k + 1, id);
    }
  }

  /** Each clearing of the account looks after every earlier one is written. */
  ghost predicate OneByOne(states: seq<Group>, steps: seq<Step>, id: MemberId) {
    forall l: nat, k: nat, i: nat | l < k && Clears(states, steps, l, id) && Clears(states, steps, k, id) && IsLook(steps, i, steps[k].op) :: l < i
  }

  /** If the clearings of an account come one by one, the mark never goes down. */
  lemma OneByOneNeverLowers(states: seq<Group>, steps: seq<Step>, i: nat, j: nat, id: MemberId)
    requires Run(states, steps) && i <= j <= |steps| && OneByOne(states, steps, id)
    ensures Mark(states[i], id) <= Mark(states[j], id)
  {
    if Mark(states[j], id) < Mark(states[i], id) {
      var k := SomeStepLowers(states, steps, i, j, id);
      LoweredExactly(states, steps, k, id);
      var l: nat :| WrittenLast(states, steps, l, k, id) && Outdated(steps, l, k);
      var looked := ClearingLooked(states, steps, l, id);
      forall y: nat | IsLook(steps, y, steps[l].op) ensures y < l {
        LooksOnce(states, steps, y, looked, steps[l].op);
      }
      assert false;
    }
  }

  // ----- It does go down --------------------------------------------------------------------------------------

  /** One member looked up the empty group to clear it, and then a message came. */
  lemma LookThenMessage() returns (states: seq<Group>, steps: seq<Step>)
    ensures Run(states, steps)
    ensures states[|steps|]
         == Group(map[1 := Message("b", true)], 1, map[0 := Member("a", true, None, 0, None)], map[0 := Lookup(0, true, false)])
  {
    states, steps := [EMPTY], [];
    states, steps := Continue(states, steps, Join(0, "a"));
    states, steps := Continue(states, steps, Look(0, true, 0));
    states, steps := Continue(states, steps, Assign);
    states, steps := Continue(states, steps, Send(1, "b", false));
    assert states[|steps|].members == map[0 := Member("a", true, None, 0, None)];
  }

  /** Of two clearings at once, the one that looked first may write last, and messages that were hidden come back. */
  lemma ClearedCanGoDown() returns (states: seq<Group>, steps: seq<Step>, i: nat)
    ensures Run(states, steps) && i < |steps| && 0 in states[i].members && 0 in states[i + 1].members
    ensures states[i + 1].members[0].cleared.GetOr(0) < states[i].members[0].cleared.GetOr(0)
  {
    states, steps := LookThenMessage();
    states, steps := Continue(states, steps, Look(1, true, 1));
    states, steps := Continue(states, steps, Clear(1, "a"));
    i := |steps|;
    assert states[i].members == map[0 := Member("a", true, Some(1), 0, Some(1))];
    states, steps := Continue(states, steps, Clear(0, "a"));
    assert states[i + 1].members == map[0 := Member("a", true, Some(1), 0, Some(0))];
  }
}
