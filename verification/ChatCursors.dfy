/**
  The read, delivered and cleared cursors of one group's members. An operation looks up the
  group's largest sequence first and writes the member later.
 */
module ChatCursors {
  import opened Basics

  type MemberId = nat
  type OpId = nat
  type Sequence = nat

  datatype Message = Message(sender: string, live: bool)

  datatype Member = Member(account: string, active: bool, read: Option<Sequence>, delivered: Sequence, cleared: Option<Sequence>)

  type Messages = map<Sequence, Message>

  /** What an operation found, whether it counted deleted messages, and whether it has written since. */
  datatype Lookup = Lookup(found: Sequence, deletedToo: bool, done: bool)

  /** `top` is the largest sequence ever assigned; an assigned one may still wait for its commit. */
  datatype Group = Group(messages: Messages, top: Sequence, members: map<MemberId, Member>, looked: map<OpId, Lookup>)

  const EMPTY: Group := Group(map[], 0, map[], map[])

  function Max(a: nat, b: nat): nat {
    if a >= b then a else b
  }

  function Min(a: nat, b: nat): nat {
    if a <= b then a else b
  }

  // ----- Lookups -----------------------------------------------------------------------------------

  /** `n` is the largest sequence of the group, or zero: of live messages alone, or of deleted ones too. */
  ghost predicate IsMaximum(messages: Messages, deletedToo: bool, n: Sequence) {
    && (forall k | k in messages && (deletedToo || messages[k].live) :: k <= n)
    && (n == 0 || (n in messages && (deletedToo || messages[n].live)))
  }

  // ----- Writes --------------------------------------------------------------------------------------

  function Read(m: Member): Sequence {
    m.read.GetOr(0)
  }

  /** The delivered cursor that other members are told: never below the read one. */
  function Reported(m: Member): Sequence {
    Max(m.delivered, Read(m))
  }

  /** The member after reading up to `requested`, or up to everything. */
  function AdvancedRead(m: Member, requested: Option<Sequence>, maximum: Sequence): Member {
    var next := Max(Min(requested.GetOr(maximum), maximum), Read(m));
    if next > Read(m) || m.read.None? then m.(read := Some(next), delivered := Max(m.delivered, next)) else m
  }

  function AdvancedDelivered(m: Member, requested: Sequence, maximum: Sequence): Member {
    m.(delivered := Max(m.delivered, Max(Min(requested, maximum), Reported(m))))
  }

  function Sent(m: Member, sequence: Sequence): Member {
    m.(read := Some(Max(Read(m), sequence)), delivered := Max(m.delivered, sequence))
  }

  function Cleared(m: Member, maximum: Sequence): Member {
    m.(cleared := Some(maximum), read := Some(Max(Read(m), maximum)))
  }

  /** The highest sequence of a page that was fetched. */
  function Highest(page: seq<Sequence>): Sequence {
    if page == [] then 0 else Max(Highest(page[..|page| - 1]), page[|page| - 1])
  }

  // ----- Steps -----------------------------------------------------------------------------------------

  datatype Step =
    | Assign
    | Send(sequence: Sequence, sender: string, bumpsCursor: bool)
    | Delete(sequence: Sequence)
    | Join(id: MemberId, account: string)
    | SetActive(id: MemberId, active: bool)
    | Look(op: OpId, deletedToo: bool, found: Sequence)
    | AdvanceRead(op: OpId, id: MemberId, requested: Option<Sequence>)
    | AdvanceDelivered(op: OpId, id: MemberId, reached: Sequence)
    | Fetch(op: OpId, id: MemberId, page: seq<Sequence>, known: Sequence)
    | Clear(op: OpId, account: string)

  /** The operation has looked and not written yet. Only a clearing counts deleted messages. */
  predicate Ready(g: Group, op: OpId, deletedToo: bool) {
    op in g.looked && g.looked[op].deletedToo == deletedToo && !g.looked[op].done
  }

  ghost predicate Enabled(g: Group, s: Step) {
    match s
    case Assign => true
    case Send(sequence, _, _) => 0 < sequence <= g.top && sequence !in g.messages
    case Delete(sequence) => sequence in g.messages
    case Join(id, _) => id !in g.members
    case SetActive(id, _) => id in g.members
    case Look(op, deletedToo, found) => op !in g.looked && IsMaximum(g.messages, deletedToo, found)
    case AdvanceRead(op, id, _) => Ready(g, op, false) && id in g.members && g.members[id].active
    case AdvanceDelivered(op, id, _) => Ready(g, op, false) && id in g.members && g.members[id].active
    case Fetch(op, id, _, _) => Ready(g, op, false) && id in g.members && g.members[id].active
    case Clear(op, _) => Ready(g, op, true)
  }

  function MemberAfter(g: Group, id: MemberId, m: Member, s: Step): Member {
    match s
    case Send(sequence, sender, bumps) => if bumps && m.account == sender && m.active then Sent(m, sequence) else m
    case SetActive(k, active) => if k == id then m.(active := active) else m
    case AdvanceRead(op, k, requested) => if k == id && op in g.looked then AdvancedRead(m, requested, g.looked[op].found) else m
    case AdvanceDelivered(op, k, reached) =>
      if k == id && op in g.looked then AdvancedDelivered(m, reached, g.looked[op].found) else m
    case Fetch(op, k, page, known) =>
      if k == id && op in g.looked && known < Highest(page) then AdvancedDelivered(m, Highest(page), g.looked[op].found) else m
    case Clear(op, account) => if m.account == account && op in g.looked then Cleared(m, g.looked[op].found) else m
    case _ => m
  }

  function Wrote(g: Group, op: OpId, members: map<MemberId, Member>): Group {
    g.(members := members, looked := if op in g.looked then g.looked[op := g.looked[op].(done := true)] else g.looked)
  }

  function Next(g: Group, s: Step): Group {
    var members := map id | id in g.members :: MemberAfter(g, id, g.members[id], s);
    match s
    case Assign => g.(top := g.top + 1)
    case Send(sequence, sender, _) => g.(messages := g.messages[sequence := Message(sender, true)], members := members)
    case Delete(sequence) =>
      if sequence in g.messages then g.(messages := g.messages[sequence := g.messages[sequence].(live := false)]) else g
    case Join(id, account) => g.(members := g.members[id := Member(account, true, None, 0, None)])
    case Look(op, deletedToo, found) => g.(looked := g.looked[op := Lookup(found, deletedToo, false)])
    case SetActive(_, _) => g.(members := members)
    case AdvanceRead(op, _, _) => Wrote(g, op, members)
    case AdvanceDelivered(op, _, _) => Wrote(g, op, members)
    case Fetch(op, _, _, _) => Wrote(g, op, members)
    case Clear(op, _) => Wrote(g, op, members)
  }

  ghost predicate Moves(states: seq<Group>, steps: seq<Step>, k: nat)
    requires k < |steps| && |states| == |steps| + 1
  {
    Enabled(states[k], steps[k]) && states[k + 1] == Next(states[k], steps[k])
  }

  ghost predicate Run(states: seq<Group>, steps: seq<Step>) {
    && |states| == |steps| + 1
    && states[0] == EMPTY
    && forall k | 0 <= k < |steps| :: Moves(states, steps, k)
  }

  // ----- What every run keeps --------------------------------------------------------------------------

  ghost predicate MemberOk(g: Group, m: Member) {
    Reported(m) <= g.top && m.cleared.GetOr(0) <= Read(m)
  }

  ghost predicate Inv(g: Group) {
    && (forall n | n in g.messages :: 0 < n <= g.top)
    && (forall op | op in g.looked :: g.looked[op].found <= g.top)
    && (forall id | id in g.members :: MemberOk(g, g.members[id]))
  }

  /** How a member may move on: neither the read nor the reported cursor goes down. */
  ghost predicate Follows(a: Member, b: Member) {
    a.account == b.account && Read(a) <= Read(b) && Reported(a) <= Reported(b)
  }

  lemma WriteFollows(g: Group, id: MemberId, m: Member, s: Step)
    ensures Follows(m, MemberAfter(g, id, m, s))
  {
  }

  lemma WriteIsOk(g: Group, id: MemberId, m: Member, s: Step)
    requires MemberOk(g, m) && Enabled(g, s) && forall op | op in g.looked :: g.looked[op].found <= g.top
    ensures MemberOk(g, MemberAfter(g, id, m, s))
  {
  }

  lemma MemberMoves(g: Group, s: Step, id: MemberId)
    requires Inv(g) && Enabled(g, s) && id in g.members
    ensures id in Next(g, s).members
    ensures Follows(g.members[id], Next(g, s).members[id]) && MemberOk(Next(g, s), Next(g, s).members[id])
  {
    WriteFollows(g, id, g.members[id], s);
    WriteIsOk(g, id, g.members[id], s);
  }

  lemma StepKeepsInv(g: Group, s: Step)
    requires Inv(g) && Enabled(g, s)
    ensures Inv(Next(g, s))
  {
    forall id | id in Next(g, s).members ensures MemberOk(Next(g, s), Next(g, s).members[id]) {
      if id in g.members {
        MemberMoves(g, s, id);
      }
    }
  }

  lemma {:induction false} RunKeepsInv(states: seq<Group>, steps: seq<Step>, n: nat)
    requires Run(states, steps) && n <= |steps|
    ensures Inv(states[n])
  {
    if n > 0 {
      RunKeepsInv(states, steps, n - 1);
      assert Moves(states, steps, n - 1);
      StepKeepsInv(states[n - 1], steps[n - 1]);
    }
  }

  /** Between any two moments of a run no member's read cursor goes down, nor the delivered cursor reported of them. */
  lemma {:induction false} CursorsNeverGoDown(states: seq<Group>, steps: seq<Step>, i: nat, j: nat, id: MemberId)
    requires Run(states, steps) && i <= j <= |steps| && id in states[i].members
    ensures id in states[j].members && Follows(states[i].members[id], states[j].members[id])
  {
    if i < j {
      CursorsNeverGoDown(states, steps, i, j - 1, id);
      RunKeepsInv(states, steps, j - 1);
      assert Moves(states, steps, j - 1);
      MemberMoves(states[j - 1], steps[j - 1], id);
    }
  }

  /** No cursor passes the largest sequence ever assigned, and read is between cleared and the reported delivered. */
  lemma CursorsInOrder(states: seq<Group>, steps: seq<Step>, n: nat, id: MemberId)
    requires Run(states, steps) && n <= |steps| && id in states[n].members
    ensures var m := states[n].members[id];
            m.cleared.GetOr(0) <= Read(m) <= Reported(m) <= states[n].top
  {
    RunKeepsInv(states, steps, n);
  }

  lemma Continue(states: seq<Group>, steps: seq<Step>, s: Step) returns (states': seq<Group>, steps': seq<Step>)
    requires Run(states, steps) && Enabled(states[|steps|], s)
    ensures Run(states', steps') && steps' == steps + [s] && states' == states + [Next(states[|steps|], s)]
  {
    states', steps' := states + [Next(states[|steps|], s)], steps + [s];
    forall k | 0 <= k < |steps'| ensures Moves(states', steps', k) {
      if k < |steps| {
        assert Moves(states, steps, k);
      }
    }
  }

  // ----- Unread counts -----------------------------------------------------------------------------------

  function Unread(messages: Messages, m: Member): nat {
    |set n | n in messages && n > Read(m) && messages[n].live|
  }

  /** A cleared conversation is not listed until a message comes after the mark. */
  ghost predicate Listed(messages: Messages, m: Member) {
    m.cleared.None? || exists n :: n in messages && n > m.cleared.value && messages[n].live
  }

  /** One membership of an account, in one of its groups. */
  datatype Membership = Membership(messages: Messages, member: Member)

  function TotalUnread(all: seq<Membership>): nat {
    if all == [] then 0 else TotalUnread(all[..|all| - 1]) + Unread(all[|all| - 1].messages, all[|all| - 1].member)
  }

  ghost function ListedUnread(all: seq<Membership>): nat {
    if all == [] then 0
    else
      var x := all[|all| - 1];
      ListedUnread(all[..|all| - 1]) + if Listed(x.messages, x.member) then Unread(x.messages, x.member) else 0
  }

  lemma HiddenHasNoUnread(messages: Messages, m: Member)
    requires m.cleared.GetOr(0) <= Read(m) && !Listed(messages, m)
    ensures Unread(messages, m) == 0
  {
    assert (set n | n in messages && n > Read(m) && messages[n].live) == {};
  }

  /** The total unread of an account is the sum over the groups it is shown, whatever has happened in each of them. */
  lemma {:induction false} TotalIsSumOfList(all: seq<Membership>)
    requires forall x | x in all :: Reachable(x)
    ensures TotalUnread(all) == ListedUnread(all)
  {
    if all != [] {
      var x := all[|all| - 1];
      assert x in all && forall y | y in all[..|all| - 1] :: y in all;
      TotalIsSumOfList(all[..|all| - 1]);
      if !Listed(x.messages, x.member) {
        var states, steps, n: nat, id :| Run(states, steps) && n <= |steps| && IsMemberOf(states, n, id, x);
        CursorsInOrder(states, steps, n, id);
        HiddenHasNoUnread(x.messages, x.member);
      }
    }
  }

  ghost predicate IsMemberOf(states: seq<Group>, n: nat, id: MemberId, x: Membership) {
    n < |states| && states[n].messages == x.messages && id in states[n].members && states[n].members[id] == x.member
  }

  ghost predicate Reachable(x: Membership) {
    exists states, steps, n: nat, id :: Run(states, steps) && n <= |steps| && IsMemberOf(states, n, id, x)
  }

  // ----- The row of a member --------------------------------------------------------------------------------

  /** A range of sequences, without its start and with its end. */
  datatype Range = Range(after: Sequence, upTo: Sequence)

  class MemberRow {
    const account: string
    var active: bool
    var read: Option<Sequence>
    var delivered: Sequence
    var cleared: Option<Sequence>

    constructor (account: string)
      ensures Value() == Member(account, true, None, 0, None)
    {
      this.account := account;
      active, read, delivered, cleared := true, None, 0, None;
    }

    function Value(): Member
      reads this
    {
      Member(account, active, read, delivered, cleared)
    }

    /** Answers with the read cursor, whether it was written, and the range that became delivered with it. */
    method AdvanceRead(requested: Option<Sequence>, maximum: Sequence)
      returns (next: Sequence, written: bool, newlyDelivered: Option<Range>)
      modifies this
      ensures Value() == AdvancedRead(old(Value()), requested, maximum)
      ensures requested.None? || requested.value > maximum ==> next == if maximum > old(read.GetOr(0)) then maximum else old(read.GetOr(0))
      ensures requested.Some? && requested.value <= maximum ==>
                next == if requested.value > old(read.GetOr(0)) then requested.value else old(read.GetOr(0))
      ensures read == Some(next) && (written <==> old(read.None?) || next > old(read.value))
      ensures delivered == if written && next > old(delivered) then next else old(delivered)
      ensures active == old(active) && cleared == old(cleared)
      ensures newlyDelivered == if old(delivered) < delivered then Some(Range(old(delivered), delivered)) else None
    {
      var wanted := if requested.Some? then requested.value else maximum;
      var target := if wanted > maximum then maximum else wanted;
      var current := read.GetOr(0);
      next := if target > current then target else current;
      newlyDelivered := None;
      written := next > current || read.None?;
      if written {
        read := Some(next);
        if next > delivered {
          newlyDelivered := Some(Range(delivered, next));
          delivered := next;
        }
      }
    }

    method AdvanceDelivered(requested: Sequence, maximum: Sequence) returns (next: Sequence, newlyDelivered: Option<Range>)
      modifies this
      ensures Value() == AdvancedDelivered(old(Value()), requested, maximum)
      ensures delivered == next
      ensures old(delivered) <= next && old(read.GetOr(0)) <= next && (requested <= next || maximum <= next)
      ensures next == old(delivered) || next == old(read.GetOr(0)) || (next == requested <= maximum) || (next == maximum < requested)
      ensures read == old(read) && active == old(active) && cleared == old(cleared)
      ensures newlyDelivered == if old(delivered) < delivered then Some(Range(old(delivered), delivered)) else None
    {
      var target := if requested > maximum then maximum else requested;
      var current := if delivered > read.GetOr(0) then delivered else read.GetOr(0);
      next := if target > current then target else current;
      newlyDelivered := None;
      if next > delivered {
        newlyDelivered := Some(Range(delivered, next));
        delivered := next;
      }
    }

    /** A message of one's own is read and delivered as soon as it is sent. */
    method OwnMessage(sequence: Sequence)
      modifies this
      ensures Value() == if old(active) then Sent(old(Value()), sequence) else old(Value())
      ensures !old(active) ==> read == old(read) && delivered == old(delivered)
      ensures old(active) ==>
                && read == Some(if sequence > old(read.GetOr(0)) then sequence else old(read.GetOr(0)))
                && delivered == if sequence > old(delivered) then sequence else old(delivered)
      ensures active == old(active) && cleared == old(cleared)
    {
      if active {
        read := Some(if read.GetOr(0) > sequence then read.GetOr(0) else sequence);
        delivered := if delivered > sequence then delivered else sequence;
      }
    }

    method ClearConversation(maximum: Sequence)
      modifies this
      ensures Value() == Cleared(old(Value()), maximum)
      ensures cleared == Some(maximum) && read == Some(if maximum > old(read.GetOr(0)) then maximum else old(read.GetOr(0)))
      ensures active == old(active) && delivered == old(delivered)
    {
      cleared := Some(maximum);
      read := Some(if read.GetOr(0) > maximum then read.GetOr(0) else maximum);
    }
  }
}
