/** Discarding a backlog: pattern by pattern, as the memory store does, or in one pass, as SQLite does. */
module StoreClearing {
  import opened StoreModel

  function OnePattern(glob: Glob, pattern: string): string -> bool {
    channel => glob(channel, pattern)
  }

  /** Every row on a wanted channel becomes delivered to the agent. */
  function ClearRows(log: Log, agent: string, wanted: string -> bool): (r: Log)
    ensures |r| == |log|
    ensures forall i :: 0 <= i < |log| ==> r[i] == if wanted(log[i].msg.channel) then Deliver(log[i], agent) else log[i]
  {
    seq(|log|, i requires 0 <= i < |log| => if wanted(log[i].msg.channel) then Deliver(log[i], agent) else log[i])
  }

  /** Clearing marks exactly the pending messages. */
  lemma ClearRowsMarks(log: Log, agent: string, wanted: string -> bool)
    requires IdsAscending(log)
    ensures ClearRows(log, agent, wanted) == MarkDelivered(log, agent, Ids(Undelivered(log, agent, wanted)))
  {
    hide Undelivered;
    var gone := Undelivered(log, agent, wanted);
    UndeliveredMembers(log, agent, wanted);
    var marked := MarkDelivered(log, agent, Ids(gone));
    forall i | 0 <= i < |log| ensures ClearRows(log, agent, wanted)[i] == marked[i] {
      if log[i].msg.id in Ids(gone) {
        var m :| m in gone && m.id == log[i].msg.id;
        var j :| 0 <= j < |log| && log[j].msg == m && Pending(log[j], agent, wanted);
        assert i == j;
      } else if wanted(log[i].msg.channel) && agent in log[i].deliveredTo {
        DeliverAgain(log[i], agent);
      }
    }
  }

  /** Clearing for two channel tests in turn counts and marks the same as clearing for either at once. */
  lemma {:induction false} ClearInTurn(log: Log, agent: string, first: string -> bool, second: string -> bool, either: string -> bool)
    requires forall c :: either(c) == (first(c) || second(c))
    ensures |Undelivered(log, agent, either)|
         == |Undelivered(log, agent, first)| + |Undelivered(ClearRows(log, agent, first), agent, second)|
    ensures ClearRows(ClearRows(log, agent, first), agent, second) == ClearRows(log, agent, either)
  {
    forall i | 0 <= i < |log|
      ensures ClearRows(ClearRows(log, agent, first), agent, second)[i] == ClearRows(log, agent, either)[i]
    {
      DeliverAgain(Deliver(log[i], agent), agent);
    }
    if log != [] {
      var n := |log| - 1;
      ClearInTurn(log[..n], agent, first, second, either);
      assert ClearRows(log, agent, first)[..n] == ClearRows(log[..n], agent, first);
    }
  }
}
