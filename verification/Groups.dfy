/** Group membership: create, invite, join and leave, and where a membership comes from. */
module Groups {
  import opened Sorting

  datatype Status = Invited | Active

  datatype Member = Member(agent: string, status: Status, joinedAt: real)

  type Table = map<string, seq<Member>>

  function MembersOf(groups: Table, group: string): seq<Member> {
    if group in groups then groups[group] else []
  }

  predicate Listed(members: seq<Member>, agent: string) {
    exists m :: m in members && m.agent == agent
  }

  predicate ActiveIn(members: seq<Member>, agent: string) {
    exists m :: m in members && m.agent == agent && m.status.Active?
  }

  /** The first pending invitation of `agent` becomes an active membership. */
  function Activate(members: seq<Member>, agent: string, now: real): seq<Member> {
    if members == [] then []
    else if members[0].agent == agent && members[0].status.Invited? then [Member(agent, Active, now)] + members[1..]
    else [members[0]] + Activate(members[1..], agent, now)
  }

  lemma ActivateNothing(agent: string, now: real)
    ensures Activate([], agent, now) == []
  {
  }

  lemma ActivateFrom(members: seq<Member>, agent: string, now: real, k: nat)
    requires k < |members|
    ensures Activate(members[k..], agent, now) ==
      if members[k].agent == agent && members[k].status.Invited? then [Member(agent, Active, now)] + members[k + 1..]
      else [members[k]] + Activate(members[k + 1..], agent, now)
  {
    assert members[k..][1..] == members[k + 1..];
  }

  datatype Op =
    | Create(creator: string, group: string, now: real)
    | Invite(inviter: string, group: string, invitee: string, now: real)
    | Join(agent: string, group: string, now: real)
    | Leave(agent: string, group: string)

  function Invitation(members: seq<Member>, invitee: string, now: real): seq<Member> {
    if Listed(members, invitee) then members else members + [Member(invitee, Invited, now)]
  }

  function Apply(groups: Table, op: Op): Table {
    match op
    case Create(creator, group, now) => groups[group := [Member(creator, Active, now)]]
    case Invite(inviter, group, invitee, now) =>
      var members := MembersOf(groups, group);
      if ActiveIn(members, inviter) then groups[group := Invitation(members, invitee, now)]
      else groups  // the call raises before it stores anything
    case Join(agent, group, now) =>
      if group in groups then groups[group := Activate(groups[group], agent, now)] else groups
    case Leave(agent, group) =>
      groups[group := Filter((m: Member) => m.agent != agent, MembersOf(groups, group))]
  }

  function After(ops: seq<Op>): Table {
    if ops == [] then map[] else Apply(After(ops[..|ops| - 1]), ops[|ops| - 1])
  }

  // ---------------------------------------------------------------- one entry per agent

  ghost predicate OneEntryEach(members: seq<Member>) {
    forall i, j :: 0 <= i < j < |members| ==> members[i].agent != members[j].agent
  }

  lemma {:induction false} ActivateAgents(members: seq<Member>, agent: string, now: real)
    ensures |Activate(members, agent, now)| == |members|
    ensures forall i :: 0 <= i < |members| ==> Activate(members, agent, now)[i].agent == members[i].agent
    ensures forall i :: 0 <= i < |members| && members[i].agent != agent ==> Activate(members, agent, now)[i] == members[i]
  {
    if members != [] && !(members[0].agent == agent && members[0].status.Invited?) {
      ActivateAgents(members[1..], agent, now);
    }
  }

  lemma {:induction false} FilterOneEntry(p: Member -> bool, members: seq<Member>)
    requires OneEntryEach(members)
    ensures OneEntryEach(Filter(p, members))
  {
    if members != [] {
      FilterOneEntry(p, members[1..]);
      var tail := Filter(p, members[1..]);
      forall j | 0 <= j < |tail| ensures members[0].agent != tail[j].agent {
        assert tail[j] in members[1..];
      }
    }
  }

  /** In every reachable table no agent appears twice in a member list. */
  lemma {:induction false} NoAgentTwice(ops: seq<Op>, group: string)
    ensures OneEntryEach(MembersOf(After(ops), group))
  {
    if ops != [] {
      var before, op := After(ops[..|ops| - 1]), ops[|ops| - 1];
      NoAgentTwice(ops[..|ops| - 1], group);
      if op.Join? && op.group == group {
        ActivateAgents(MembersOf(before, group), op.agent, op.now);
      } else if op.Leave? && op.group == group {
        FilterOneEntry((m: Member) => m.agent != op.agent, MembersOf(before, group));
      }
    }
  }

  // ---------------------------------------------------------------- chains of invitations

  /** `created` is the last creation of the group in `ops`. */
  ghost predicate LastCreation(ops: seq<Op>, group: string, created: nat) {
    && created < |ops| && ops[created].Create? && ops[created].group == group
    && forall i :: created < i < |ops| ==> !(ops[i].Create? && ops[i].group == group)
  }

  /** Link `i` of a chain is an invitation into the group, later than the creation and than the link
      before, by the creator (for the first link) or by the agent the link before invited, who was active
      in the group at that moment. */
  ghost predicate GoodLink(ops: seq<Op>, group: string, created: nat, links: seq<nat>, i: nat) {
    && created < |ops| && ops[created].Create? && i < |links| && links[i] < |ops|
    && ops[links[i]].Invite? && ops[links[i]].group == group
    && ActiveIn(MembersOf(After(ops[..links[i]]), group), ops[links[i]].inviter)
    && if i == 0 then created < links[0] && ops[links[0]].inviter == ops[created].creator
       else links[i - 1] < links[i] && ops[links[i - 1]].Invite? && ops[links[i]].inviter == ops[links[i - 1]].invitee
  }

  ghost predicate InvitationChain(ops: seq<Op>, group: string, agent: string, created: nat, links: seq<nat>) {
    && LastCreation(ops, group, created)
    && (forall i :: 0 <= i < |links| ==> GoodLink(ops, group, created, links, i))
    && if links == [] then ops[created].creator == agent
       else GoodLink(ops, group, created, links, |links| - 1) && ops[links[|links| - 1]].invitee == agent
  }

  /** The agent accepted after its last invitation, or created the group. */
  ghost predicate Accepted(ops: seq<Op>, group: string, agent: string, links: seq<nat>) {
    links == [] || exists j :: links[|links| - 1] < j < |ops| && ops[j].Join? && ops[j].group == group && ops[j].agent == agent
  }

  /** A later operation that does not create the group leaves a chain as it is. */
  lemma ChainExtends(ops: seq<Op>, op: Op, group: string, agent: string, created: nat, links: seq<nat>)
    requires InvitationChain(ops, group, agent, created, links) && !(op.Create? && op.group == group)
    ensures InvitationChain(ops + [op], group, agent, created, links)
  {
    var ops' := ops + [op];
    forall i | 0 <= i < |links| ensures GoodLink(ops', group, created, links, i) {
      assert GoodLink(ops, group, created, links, i);
      assert ops'[..links[i]] == ops[..links[i]];
    }
  }

  /** An invitation by the end of a chain that is active now extends the chain to the invitee. */
  lemma ChainGrows(ops: seq<Op>, op: Op, group: string, created: nat, links: seq<nat>)
    requires op.Invite? && op.group == group && InvitationChain(ops, group, op.inviter, created, links)
    requires ActiveIn(MembersOf(After(ops), group), op.inviter)
    ensures InvitationChain(ops + [op], group, op.invitee, created, links + [|ops|])
  {
    hide GoodLink, MembersOf, ActiveIn, After, LastCreation;
    ChainExtends(ops, op, group, op.inviter, created, links);
    var ops', links' := ops + [op], links + [|ops|];
    forall i | 0 <= i < |links'| ensures GoodLink(ops', group, created, links', i) {
      if i < |links| {
        LongerChain(ops', group, created, links, |ops|, i);
      } else {
        NewLink(ops, op, group, created, links);
      }
    }
    LastLink(ops', group, op.invitee, created, links');
  }

  lemma LastLink(ops: seq<Op>, group: string, agent: string, created: nat, links: seq<nat>)
    requires LastCreation(ops, group, created) && links != [] && links[|links| - 1] < |ops|
    requires forall i :: 0 <= i < |links| ==> GoodLink(ops, group, created, links, i)
    requires ops[links[|links| - 1]].Invite? && ops[links[|links| - 1]].invitee == agent
    ensures InvitationChain(ops, group, agent, created, links)
  {
    hide GoodLink, LastCreation;
  }

  lemma LongerChain(ops: seq<Op>, group: string, created: nat, links: seq<nat>, next: nat, i: nat)
    requires GoodLink(ops, group, created, links, i)
    ensures GoodLink(ops, group, created, links + [next], i)
  {
    hide After, MembersOf, ActiveIn;
    var links' := links + [next];
    assert links'[i] == links[i] && (i > 0 ==> links'[i - 1] == links[i - 1]);
  }

  lemma NewLink(ops: seq<Op>, op: Op, group: string, created: nat, links: seq<nat>)
    requires op.Invite? && op.group == group && InvitationChain(ops, group, op.inviter, created, links)
    requires ActiveIn(MembersOf(After(ops), group), op.inviter)
    ensures GoodLink(ops + [op], group, created, links + [|ops|], |links|)
  {
    hide After, MembersOf, ActiveIn;
    var ops', links' := ops + [op], links + [|ops|];
    assert ops'[..|ops|] == ops && ops'[|ops|] == op && links'[|links|] == |ops|;
    assert ops'[created] == ops[created];
    if links != [] {
      var last := |links| - 1;
      assert GoodLink(ops, group, created, links, last);
      assert links'[last] == links[last] && ops'[links[last]] == ops[links[last]];
    }
  }

  /** How an agent on the list after an operation got there. */
  lemma ListedBecause(before: Table, op: Op, group: string, agent: string)
    requires Listed(MembersOf(Apply(before, op), group), agent)
    ensures (op.Create? && op.group == group && op.creator == agent)
      || (!(op.Create? && op.group == group) && Listed(MembersOf(before, group), agent))
      || (op.Invite? && op.group == group && op.invitee == agent && ActiveIn(MembersOf(before, group), op.inviter))
    ensures ActiveIn(MembersOf(Apply(before, op), group), agent) && !(op.Create? && op.group == group)
      ==> ActiveIn(MembersOf(before, group), agent) || (op.Join? && op.group == group && op.agent == agent)
  {
    if op.Join? && op.group == group {
      var members := MembersOf(before, group);
      ActivateAgents(members, op.agent, op.now);
      var after := Activate(members, op.agent, op.now);
      if group in before {
        var i :| 0 <= i < |after| && after[i].agent == agent;
        assert members[i] in members;
        if ActiveIn(after, agent) && agent != op.agent {
          var k :| 0 <= k < |after| && after[k].agent == agent && after[k].status.Active?;
          assert members[k] in members;
        }
      }
    }
  }

  /** Everybody on a member list is linked to the creator by a chain of invitations made since the last
      creation of the group, each by a then-active member; an active member has accepted. */
  lemma {:induction false} MembershipHasOrigin(ops: seq<Op>, group: string, agent: string) returns (created: nat, links: seq<nat>)
    requires Listed(MembersOf(After(ops), group), agent)
    ensures InvitationChain(ops, group, agent, created, links)
    ensures ActiveIn(MembersOf(After(ops), group), agent) ==> Accepted(ops, group, agent, links)
  {
    var n := |ops| - 1;
    var init, op := ops[..n], ops[n];
    var before := After(init);
    assert ops == init + [op];
    assert After(ops) == Apply(before, op);
    hide After, ActiveIn, Listed, InvitationChain;
    ListedBecause(before, op, group, agent);
    if op.Create? && op.group == group {
      created, links := n, [];
    } else if Listed(MembersOf(before, group), agent) {
      created, links := MembershipHasOrigin(init, group, agent);
      ChainExtends(init, op, group, agent, created, links);
      if ActiveIn(MembersOf(After(ops), group), agent) && links != [] {
        if ActiveIn(MembersOf(before, group), agent) {
          var j :| links[|links| - 1] < j < |init| && init[j].Join? && init[j].group == group && init[j].agent == agent;
          assert ops[j] == init[j];
        } else {
          assert ops[n] == op;
        }
      }
    } else {
      created, links := MembershipHasOrigin(init, group, op.inviter);
      ChainGrows(init, op, group, created, links);
      links := links + [n];
    }
  }
}
