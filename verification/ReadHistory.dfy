/** What is read, delivered and unread, by the steps of a run alone. */
module ReadHistory {
  import opened Basics
  import opened ChatCursors

  /** Step `s` reads message `n` for the member: the request reaches it, it was found, or it is cleared or not above an own message. */
  ghost predicate Reads(g: Group, s: Step, id: MemberId, n: Sequence) {
    && id in g.members
    && match s
       case AdvanceRead(op, k, requested) =>
         k == id && op in g.looked && n <= g.looked[op].found && (requested.None? || n <= requested.value)
       case Send(sequence, sender, bumps) => bumps && g.members[id].active && g.members[id].account == sender && n <= sequence
       case Clear(op, account) => g.members[id].account == account && op in g.looked && n <= g.looked[op].found
       case _ => false
  }

  /** Step `s` delivers message `n`: it reads it, or a report or a page that reaches beyond what was known takes it in. */
  ghost predicate Delivers(g: Group, s: Step, id: MemberId, n: Sequence) {
    || Reads(g, s, id, n)
    || (&& id in g.members
        && match s
           case AdvanceDelivered(op, k, reached) => k == id && op in g.looked && n <= g.looked[op].found && n <= reached
           case Fetch(op, k, page, known) =>
             k == id && op in g.looked && n <= g.looked[op].found && exists p | p in page :: n <= p && known < p
           case _ => false)
  }

  ghost predicate ReadsAt(states: seq<Group>, steps: seq<Step>, k: nat, id: MemberId, n: Sequence) {
    k < |steps| && k < |states| && Reads(states[k], steps[k], id, n)
  }

  ghost predicate DeliversAt(states: seq<Group>, steps: seq<Step>, k: nat, id: MemberId, n: Sequence) {
    k < |steps| && k < |states| && Delivers(states[k], steps[k], id, n)
  }

  ghost predicate SendsAt(steps: seq<Step>, k: nat, n: Sequence) {
    k < |steps| && steps[k].Send? && steps[k].sequence == n
  }

  ghost predicate DeletesAt(steps: seq<Step>, k: nat, n: Sequence) {
    k < |steps| && steps[k].Delete? && steps[k].sequence == n
  }

  // ----- One step ------------------------------------------------------------------------------------------

  ghost predicate HasRead(g: Group, id: MemberId, n: Sequence) {
    id in g.members && g.members[id].read.Some? && n <= g.members[id].read.value
  }

  ghost predicate HasDelivered(g: Group, id: MemberId, n: Sequence) {
    HasRead(g, id, n) || (id in g.members && n <= g.members[id].delivered)
  }

  ghost predicate IsLive(g: Group, n: Sequence) {
    n in g.messages && g.messages[n].live
  }

  /** A message is read after a step exactly when it was before or the step reads it. */
  lemma StepReads(g: Group, s: Step, id: MemberId, n: Sequence)
    requires Enabled(g, s) && n > 0
    ensures HasRead(Next(g, s), id, n) <==> HasRead(g, id, n) || Reads(g, s, id, n)
  {
  }

  lemma {:induction false} HighestReaches(page: seq<Sequence>, n: Sequence, known: Sequence)
    requires n > 0
    ensures n <= Highest(page) && known < Highest(page) <==> exists p | p in page :: n <= p && known < p
  {
    if page != [] {
      var init, last := page[..|page| - 1], page[|page| - 1];
      HighestReaches(init, n, known);
      assert page == init + [last] && last in page;
      if p :| p in init && n <= p && known < p {
        assert p in page;
      }
    }
  }

  lemma StepDelivers(g: Group, s: Step, id: MemberId, n: Sequence)
    requires Enabled(g, s) && n > 0
    ensures HasDelivered(Next(g, s), id, n) <==> HasDelivered(g, id, n) || Delivers(g, s, id, n)
  {
    if s.Fetch? {
      HighestReaches(s.page, n, s.known);
    } else if s.AdvanceDelivered? {
      assert id in g.members ==> Next(g, s).members[id] == MemberAfter(g, id, g.members[id], s);
    } else {
      StepReads(g, s, id, n);
    }
  }

  lemma StepLives(g: Group, s: Step, n: Sequence)
    requires Enabled(g, s)
    ensures n in Next(g, s).messages <==> n in g.messages || (s.Send? && s.sequence == n)
    ensures IsLive(Next(g, s), n) <==> (IsLive(g, n) || (s.Send? && s.sequence == n)) && !(s.Delete? && s.sequence == n)
  {
  }

  // ----- Whole runs -------------------------------------------------------------------------------------------

  /** A member's read cursor is at or above a message exactly when some step has read it. */
  lemma {:induction false} ReadExactly(states: seq<Group>, steps: seq<Step>, j: nat, id: MemberId, n: Sequence)
    requires Run(states, steps) && j <= |steps| && n > 0
    ensures HasRead(states[j], id, n) <==> exists k: nat :: k < j && ReadsAt(states, steps, k, id, n)
  {
    if j > 0 {
      ReadExactly(states, steps, j - 1, id, n);
      assert Moves(states, steps, j - 1);
      StepReads(states[j - 1], steps[j - 1], id, n);
      assert ReadsAt(states, steps, j - 1, id, n) <==> Reads(states[j - 1], steps[j - 1], id, n);
    }
  }

  /** The delivered cursor reported of a member is at or above a message exactly when some step has delivered it. */
  lemma {:induction false} DeliveredExactly(states: seq<Group>, steps: seq<Step>, j: nat, id: MemberId, n: Sequence)
    requires Run(states, steps) && j <= |steps| && n > 0
    ensures HasDelivered(states[j], id, n) <==> exists k: nat :: k < j && DeliversAt(states, steps, k, id, n)
  {
    if j > 0 {
      DeliveredExactly(states, steps, j - 1, id, n);
      assert Moves(states, steps, j - 1);
      StepDelivers(states[j - 1], steps[j - 1], id, n);
      assert DeliversAt(states, steps, j - 1, id, n) <==> Delivers(states[j - 1], steps[j - 1], id, n);
    }
  }

  lemma {:induction false} LiveExactly(states: seq<Group>, steps: seq<Step>, j: nat, n: Sequence)
    requires Run(states, steps) && j <= |steps|
    ensures n in states[j].messages <==> exists k: nat :: k < j && SendsAt(steps, k, n)
    ensures (exists k: nat :: k < j && DeletesAt(steps, k, n)) ==> n in states[j].messages
    ensures IsLive(states[j], n) <==> (exists k: nat :: k < j && SendsAt(steps, k, n)) && !exists k: nat :: k < j && DeletesAt(steps, k, n)
  {
    if j > 0 {
      LiveExactly(states, steps, j - 1, n);
      assert Moves(states, steps, j - 1);
      StepLives(states[j - 1], steps[j - 1], n);
      assert SendsAt(steps, j - 1, n) <==> steps[j - 1].Send? && steps[j - 1].sequence == n;
      assert DeletesAt(steps, j - 1, n) <==> steps[j - 1].Delete? && steps[j - 1].sequence == n;
    }
  }

  /** Sent by some step, deleted by none and read for the member by none. */
  ghost predicate Waiting(states: seq<Group>, steps: seq<Step>, j: nat, id: MemberId, n: Sequence) {
    && (exists k: nat :: k < j && SendsAt(steps, k, n))
    && (forall k: nat | k < j :: !DeletesAt(steps, k, n))
    && (forall k: nat | k < j :: !ReadsAt(states, steps, k, id, n))
  }

  /** The unread count of a member is the number of messages that some step sent, none deleted and none read for it. */
  lemma UnreadExactly(states: seq<Group>, steps: seq<Step>, j: nat, id: MemberId)
    requires Run(states, steps) && j <= |steps| && id in states[j].members
    ensures Unread(states[j].messages, states[j].members[id])
         == |set n | n in states[j].messages && Waiting(states, steps, j, id, n)|
    ensures forall n :: Waiting(states, steps, j, id, n) ==> n in states[j].messages
  {
    var g, m := states[j], states[j].members[id];
    RunKeepsInv(states, steps, j);
    forall n: Sequence ensures Waiting(states, steps, j, id, n) <==> n in g.messages && n > Read(m) && g.messages[n].live {
      LiveExactly(states, steps, j, n);
      if n in g.messages {
        ReadExactly(states, steps, j, id, n);
      }
    }
    assert (set n | n in g.messages && n > Read(m) && g.messages[n].live) == set n | n in g.messages && Waiting(states, steps, j, id, n);
  }

  /** Sent by some step and deleted by none. */
  ghost predicate Remains(steps: seq<Step>, j: nat, n: Sequence) {
    (exists k: nat :: k < j && SendsAt(steps, k, n)) && forall k: nat | k < j :: !DeletesAt(steps, k, n)
  }

  /** A conversation is listed exactly if it was not cleared, or a message above the mark was sent that was not deleted. */
  lemma ListedExactly(states: seq<Group>, steps: seq<Step>, j: nat, m: Member)
    requires Run(states, steps) && j <= |steps|
    ensures Listed(states[j].messages, m) <==> m.cleared.None? || exists n: Sequence :: n > m.cleared.value && Remains(steps, j, n)
  {
    forall n: Sequence ensures IsLive(states[j], n) <==> Remains(steps, j, n) {
      LiveExactly(states, steps, j, n);
    }
    if m.cleared.Some? {
      if n :| n in states[j].messages && n > m.cleared.value && states[j].messages[n].live {
        assert IsLive(states[j], n);
      }
      if n: Sequence :| n > m.cleared.value && Remains(steps, j, n) {
        assert IsLive(states[j], n);
      }
    }
  }

  // ----- A request to read up to a sequence ---------------------------------------------------------------------

  ghost predicate IsUnread(g: Group, id: MemberId, n: Sequence) {
    id in g.members && IsLive(g, n) && n > g.members[id].read.GetOr(0)
  }

  /** After reading, a message is unread exactly when it was and lies above the request or above what was found. */
  lemma AdvanceReadExactly(g: Group, op: OpId, id: MemberId, requested: Option<Sequence>, n: Sequence)
    requires Enabled(g, AdvanceRead(op, id, requested))
    ensures IsUnread(Next(g, AdvanceRead(op, id, requested)), id, n)
       <==> IsUnread(g, id, n) && (n > g.looked[op].found || (requested.Some? && n > requested.value))
    ensures forall k | k in g.members && k != id :: k in Next(g, AdvanceRead(op, id, requested)).members
              && Next(g, AdvanceRead(op, id, requested)).members[k] == g.members[k]
  {
    StepLives(g, AdvanceRead(op, id, requested), n);
    if n > 0 {
      StepReads(g, AdvanceRead(op, id, requested), id, n);
    }
  }
}
