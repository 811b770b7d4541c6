/** What each group operation does to any table of groups. */
module GroupOperations {
  import opened Sorting
  import opened Groups

  ghost predicate OthersUntouched(before: Table, after: Table, group: string) {
    forall g :: g != group ==> (g in after <==> g in before) && (g in before ==> after[g] == before[g])
  }

  /** A creation leaves the creator alone in the group, active, whoever was in it before. */
  lemma CreateExactly(groups: Table, creator: string, group: string, now: real)
    ensures var after := Apply(groups, Op.Create(creator, group, now));
      && OthersUntouched(groups, after, group)
      && group in after && after[group] == [Member(creator, Active, now)]
  {
  }

  /** An active member's invitation appends the invitee, unless it is listed already; anybody else's changes
      nothing. */
  lemma InviteExactly(groups: Table, inviter: string, group: string, invitee: string, now: real)
    ensures var after := Apply(groups, Op.Invite(inviter, group, invitee, now));
      && OthersUntouched(groups, after, group)
      && (group !in groups ==> after == groups)
      && (group in groups ==>
           && group in after
           && after[group] ==
                if (exists m :: m in groups[group] && m.agent == inviter && m.status == Active)
                   && !(exists m :: m in groups[group] && m.agent == invitee)
                then groups[group] + [Member(invitee, Invited, now)]
                else groups[group])
  {
  }

  /** A join makes the agent's first pending invitation an active membership and leaves the other entries as
      they are; without a pending invitation it changes nothing. */
  lemma JoinExactly(groups: Table, agent: string, group: string, now: real)
    ensures var after := Apply(groups, Op.Join(agent, group, now));
      && OthersUntouched(groups, after, group)
      && (group !in groups ==> after == groups)
      && (group in groups ==> group in after && JoinedAs(groups[group], after[group], agent, now))
  {
    if group in groups {
      ActivateExactly(groups[group], agent, now);
    }
  }

  ghost predicate Invitee(members: seq<Member>, k: nat, agent: string) {
    k < |members| && members[k].agent == agent && members[k].status == Invited
  }

  ghost predicate JoinedAs(before: seq<Member>, after: seq<Member>, agent: string, now: real) {
    && |after| == |before|
    && forall k :: 0 <= k < |before| ==>
         after[k] == if Invitee(before, k, agent) && !(exists l :: 0 <= l < k && Invitee(before, l, agent))
                     then Member(agent, Active, now) else before[k]
  }

  lemma {:induction false} ActivateExactly(members: seq<Member>, agent: string, now: real)
    ensures JoinedAs(members, Activate(members, agent, now), agent, now)
  {
    if members != [] {
      var rest := members[1..];
      if Invitee(members, 0, agent) {
        assert Activate(members, agent, now) == [Member(agent, Active, now)] + rest;
      } else {
        ActivateExactly(rest, agent, now);
        InviteesShift(members, agent);
        var after := Activate(members, agent, now);
        assert after == [members[0]] + Activate(rest, agent, now);
        forall k | 0 < k < |members|
          ensures after[k] == if Invitee(members, k, agent) && !(exists l :: 0 <= l < k && Invitee(members, l, agent))
                              then Member(agent, Active, now) else members[k]
        {
          assert Invitee(members, k, agent) <==> Invitee(rest, k - 1, agent);
          if l :| 0 <= l < k && Invitee(members, l, agent) {
            assert Invitee(rest, l - 1, agent);
          }
          if l :| 0 <= l < k - 1 && Invitee(rest, l, agent) {
            assert Invitee(members, l + 1, agent);
          }
        }
      }
    }
  }

  lemma InviteesShift(members: seq<Member>, agent: string)
    requires members != []
    ensures forall k: nat :: k > 0 ==> (Invitee(members, k, agent) <==> Invitee(members[1..], k - 1, agent))
  {
  }

  /** A leave removes the agent's entries; the others stay, in order. */
  lemma LeaveExactly(groups: Table, agent: string, group: string) returns (places: seq<nat>)
    ensures var after := Apply(groups, Op.Leave(agent, group));
      && OthersUntouched(groups, after, group)
      && group in after
      && (group !in groups ==> after[group] == [])
      && (group in groups ==> PickedAt((m: Member) => m.agent != agent, groups[group], after[group], places))
  {
    hide Filter;
    places := FilterPicks((m: Member) => m.agent != agent, MembersOf(groups, group));
  }

  /** So after a leave the agent is not listed, and everybody else is exactly if listed before. */
  lemma LeaverGone(groups: Table, agent: string, group: string, other: string)
    ensures var after := MembersOf(Apply(groups, Op.Leave(agent, group)), group);
      && !Listed(after, agent)
      && (other != agent ==> (Listed(after, other) <==> Listed(MembersOf(groups, group), other)))
      && (other != agent ==> (ActiveIn(after, other) <==> ActiveIn(MembersOf(groups, group), other)))
  {
  }
}
