/** Concurrent sends to the SQLite store: each first reads the highest number of its channel, and inserts its
    message later. */
module SqliteSends {
  import opened Options
  import opened StoreModel
  import opened StoreDrain
  import opened StoreRuns
  import opened SqliteBackingStore

  datatype Sending = Sending(channel: string, sender: string, body: string, correlationId: Option<string>,
                             sentAt: real, replyTo: Option<string>)

  /** Not begun, holding the number it is going to use, or inserted. */
  datatype Phase = Idle | Holding(n: int) | Stored

  datatype Table = Table(phases: seq<Phase>, rows: Log)

  datatype Move = Read(call: nat) | Insert(call: nat)

  predicate Enabled(sends: seq<Sending>, t: Table, move: Move) {
    && move.call < |t.phases| == |sends|
    && if move.Read? then t.phases[move.call].Idle? else t.phases[move.call].Holding?
  }

  function NewRow(s: Sending, id: int, n: int): Row {
    Row(Message(id, s.channel, s.sender, s.body, s.correlationId, s.sentAt, n, s.replyTo), {})
  }

  function Next(sends: seq<Sending>, t: Table, move: Move): Table
    requires Enabled(sends, t, move)
  {
    var c := move.call;
    match move
    case Read(_) => t.(phases := t.phases[c := Holding(MaxSeq(t.rows, sends[c].channel) + 1)])
    case Insert(_) => Table(t.phases[c := Stored], t.rows + [NewRow(sends[c], |t.rows| + 1, t.phases[c].n)])
  }

  ghost predicate Run(sends: seq<Sending>, moves: seq<Move>, tables: seq<Table>) {
    && |tables| == |moves| + 1
    && tables[0] == Table(seq(|sends|, i => Idle), [])
    && forall i :: 0 <= i < |moves| ==>
         Enabled(sends, tables[i], moves[i]) && tables[i + 1] == Next(sends, tables[i], moves[i])
  }

  function Line(rows: Log, channel: string): seq<Message> {
    OnChannel(Messages(rows), channel)
  }

  /** The messages of every channel are numbered 1..k in order. */
  ghost predicate AllDense(rows: Log) {
    forall c :: ChannelDense(Messages(rows), |Line(rows, c)|, c)
  }

  /** Move i inserts into the channel. */
  predicate InsertsInto(sends: seq<Sending>, moves: seq<Move>, i: nat, channel: string) {
    i < |moves| && moves[i].Insert? && moves[i].call < |sends| && sends[moves[i].call].channel == channel
  }

  /** No other message was inserted into the channel between the read and the insertion of this send. */
  ghost predicate Undisturbed(sends: seq<Sending>, moves: seq<Move>, i: nat)
    requires i < |moves| && moves[i].call < |sends|
  {
    forall r, k :: 0 <= r < k < i && moves[r] == Read(moves[i].call) ==> !InsertsInto(sends, moves, k, sends[moves[i].call].channel)
  }

  // ---------------------------------------------------------------- one more row

  lemma LineNext(rows: Log, row: Row, channel: string)
    ensures Line(rows + [row], channel) == if row.msg.channel == channel then Line(rows, channel) + [row.msg] else Line(rows, channel)
  {
    assert Messages(rows + [row]) == Messages(rows) + [row.msg];
    OnChannelConcat(Messages(rows), [row.msg], channel);
    assert OnChannel([row.msg], channel) == if row.msg.channel == channel then [row.msg] else [];
  }

  /** A table with one more row is dense exactly when it was before and the row has the next number. */
  lemma DenseNext(rows: Log, row: Row)
    ensures AllDense(rows + [row]) <==> AllDense(rows) && row.msg.seqNo == |Line(rows, row.msg.channel)| + 1
  {
    hide OnChannel;
    var rows' := rows + [row];
    forall c ensures ChannelDense(Messages(rows'), |Line(rows', c)|, c) <==>
      ChannelDense(Messages(rows), |Line(rows, c)|, c) && (c == row.msg.channel ==> row.msg.seqNo == |Line(rows, c)| + 1)
    {
      LineNext(rows, row, c);
      var line, line' := Line(rows, c), Line(rows', c);
      if ChannelDense(Messages(rows'), |line'|, c) {
        assert forall k :: 0 <= k < |line| ==> line[k] == line'[k];
        assert c == row.msg.channel ==> line'[|line|].seqNo == |line| + 1;
      }
    }
  }

  /** In a dense table the highest number of a channel is its length. */
  lemma MaxIsLength(rows: Log, channel: string)
    requires AllDense(rows)
    ensures MaxSeq(rows, channel) == |Line(rows, channel)|
  {
    hide MaxSeq, OnChannel;
    var line := Line(rows, channel);
    assert ChannelDense(Messages(rows), |line|, channel);
    MaxSeqBounds(rows, channel);
    if line != [] {
      assert line[|line| - 1] in line;
    }
  }

  // ---------------------------------------------------------------- runs

  /** A send that holds a number took it from the table at its read. */
  lemma {:induction false} HeldSince(sends: seq<Sending>, moves: seq<Move>, tables: seq<Table>, i: nat, c: nat) returns (r: nat)
    requires Run(sends, moves, tables) && i <= |moves| && c < |sends|
    requires c < |tables[i].phases| && tables[i].phases[c].Holding?
    ensures r < i && moves[r] == Read(c) && tables[i].phases[c].n == MaxSeq(tables[r].rows, sends[c].channel) + 1
  {
    hide MaxSeq;
    assert i > 0;
    if moves[i - 1] == Read(c) {
      r := i - 1;
    } else {
      r := HeldSince(sends, moves, tables, i - 1, c);
    }
  }

  /** An insertion appends the send's message, undelivered, under the next row id and with the number after the
      highest one its channel had at the read. */
  lemma InsertedRow(sends: seq<Sending>, moves: seq<Move>, tables: seq<Table>, i: nat) returns (r: nat, row: Row)
    requires Run(sends, moves, tables) && i < |moves| && moves[i].Insert?
    ensures tables[i + 1].rows == tables[i].rows + [row] && row.deliveredTo == {} && moves[i].call < |sends|
    ensures var send, msg := sends[moves[i].call], row.msg;
      && msg.channel == send.channel && msg.sender == send.sender && msg.body == send.body && msg.sentAt == send.sentAt
      && msg.correlationId == send.correlationId && msg.replyTo == send.replyTo && msg.id == |tables[i].rows| + 1
      && r < i && moves[r] == Read(moves[i].call) && msg.seqNo == MaxSeq(tables[r].rows, send.channel) + 1
  {
    hide MaxSeq;
    var c := moves[i].call;
    r := HeldSince(sends, moves, tables, i, c);
    row := NewRow(sends[c], |tables[i].rows| + 1, tables[i].phases[c].n);
  }

  /** No send reads twice. */
  lemma {:induction false} ReadOnce(sends: seq<Sending>, moves: seq<Move>, tables: seq<Table>, r: nat, i: nat, c: nat)
    requires Run(sends, moves, tables) && r < i <= |moves| && moves[r] == Read(c)
    ensures c < |tables[i].phases| && !tables[i].phases[c].Idle?
    ensures forall k :: r < k < i ==> moves[k] != Read(c)
  {
    hide MaxSeq;
    if r < i - 1 {
      ReadOnce(sends, moves, tables, r, i - 1, c);
    }
  }

  /** A channel grows exactly when something is inserted into it. */
  lemma {:induction false} LineGrows(sends: seq<Sending>, moves: seq<Move>, tables: seq<Table>, r: nat, i: nat, channel: string)
    requires Run(sends, moves, tables) && r <= i <= |moves|
    ensures |Line(tables[r].rows, channel)| <= |Line(tables[i].rows, channel)|
    ensures |Line(tables[r].rows, channel)| == |Line(tables[i].rows, channel)| <==>
      forall k :: r <= k < i ==> !InsertsInto(sends, moves, k, channel)
    ensures AllDense(tables[i].rows) ==> AllDense(tables[r].rows)
  {
    hide MaxSeq, OnChannel, AllDense;
    if r < i {
      LineGrows(sends, moves, tables, r, i - 1, channel);
      var before, move := tables[i - 1], moves[i - 1];
      if move.Insert? {
        var row := NewRow(sends[move.call], |before.rows| + 1, before.phases[move.call].n);
        LineNext(before.rows, row, channel);
        DenseNext(before.rows, row);
      }
      assert InsertsInto(sends, moves, i - 1, channel) <==> move.Insert? && sends[move.call].channel == channel;
    }
  }

  /** What an insertion does to a dense table depends on what happened since the read. */
  lemma InsertIntoDense(sends: seq<Sending>, moves: seq<Move>, tables: seq<Table>, i: nat)
    requires Run(sends, moves, tables) && i < |moves| && moves[i].Insert? && moves[i].call < |sends|
    requires AllDense(tables[i].rows)
    ensures AllDense(tables[i + 1].rows) <==> Undisturbed(sends, moves, i)
  {
    hide MaxSeq, OnChannel, AllDense, Line;
    var c := moves[i].call;
    var channel := sends[c].channel;
    var r := HeldSince(sends, moves, tables, i, c);
    LineGrows(sends, moves, tables, r, i, channel);
    MaxIsLength(tables[r].rows, channel);
    DenseNext(tables[i].rows, NewRow(sends[c], |tables[i].rows| + 1, tables[i].phases[c].n));
    ReadOnce(sends, moves, tables, r, i, c);
    assert forall q :: 0 <= q < i && moves[q] == Read(c) ==> q <= r;
    OnlyRead(sends, moves, tables, r, i, c);
    assert !InsertsInto(sends, moves, r, channel);
  }

  lemma OnlyRead(sends: seq<Sending>, moves: seq<Move>, tables: seq<Table>, r: nat, i: nat, c: nat)
    requires Run(sends, moves, tables) && r < i <= |moves| && moves[r] == Read(c)
    ensures forall q :: 0 <= q < i && moves[q] == Read(c) ==> q == r
  {
    forall q | 0 <= q < i && moves[q] == Read(c) ensures q == r {
      if q < r {
        ReadOnce(sends, moves, tables, q, i, c);
      } else if r < q {
        ReadOnce(sends, moves, tables, r, i, c);
      }
    }
  }

  ghost predicate AllUndisturbed(sends: seq<Sending>, moves: seq<Move>) {
    forall i :: 0 <= i < |moves| && moves[i].Insert? && moves[i].call < |sends| ==> Undisturbed(sends, moves, i)
  }

  lemma UndisturbedPrefix(sends: seq<Sending>, moves: seq<Move>, m: nat, i: nat)
    requires i < m <= |moves| && moves[i].call < |sends|
    ensures Undisturbed(sends, moves[..m], i) <==> Undisturbed(sends, moves, i)
  {
    var channel := sends[moves[i].call].channel;
    assert forall k :: 0 <= k < i ==> moves[..m][k] == moves[k];
    assert forall k: nat :: k < i ==> (InsertsInto(sends, moves[..m], k, channel) <==> InsertsInto(sends, moves, k, channel));
  }

  lemma UndisturbedNext(sends: seq<Sending>, moves: seq<Move>, n: nat)
    requires n < |moves| && moves[n].call < |sends|
    ensures AllUndisturbed(sends, moves[..n + 1]) <==>
      AllUndisturbed(sends, moves[..n]) && (moves[n].Insert? ==> Undisturbed(sends, moves, n))
  {
    hide Undisturbed;
    forall i | 0 <= i <= n && moves[i].call < |sends| ensures Undisturbed(sends, moves[..n + 1], i) <==> Undisturbed(sends, moves, i) {
      UndisturbedPrefix(sends, moves, n + 1, i);
    }
    forall i | 0 <= i < n && moves[i].call < |sends| ensures Undisturbed(sends, moves[..n], i) <==> Undisturbed(sends, moves, i) {
      UndisturbedPrefix(sends, moves, n, i);
    }
    assert forall i :: 0 <= i <= n ==> moves[..n + 1][i] == moves[i];
    assert forall i :: 0 <= i < n ==> moves[..n][i] == moves[i];
  }

  /** Concurrent sends leave every channel numbered 1..k in order exactly when no send had another message
      inserted into its channel between its read and its own insertion. */
  lemma {:induction false} DenseIffUndisturbed(sends: seq<Sending>, moves: seq<Move>, tables: seq<Table>, n: nat)
    requires Run(sends, moves, tables) && n <= |moves|
    ensures n < |tables|
    ensures AllDense(tables[n].rows) <==> AllUndisturbed(sends, moves[..n])
  {
    hide AllDense, AllUndisturbed, Run;
    RunSize(sends, moves, tables);
    if n == 0 {
      NothingStored(sends, moves, tables);
    } else {
      DenseIffUndisturbed(sends, moves, tables, n - 1);
      DenseStep(sends, moves, tables, n - 1);
    }
  }

  /** A read changes neither; an insertion keeps the numbers dense exactly when it was undisturbed. */
  lemma DenseStep(sends: seq<Sending>, moves: seq<Move>, tables: seq<Table>, n: nat)
    requires Run(sends, moves, tables) && n < |moves|
    requires AllDense(tables[n].rows) <==> AllUndisturbed(sends, moves[..n])
    ensures AllDense(tables[n + 1].rows) <==> AllUndisturbed(sends, moves[..n + 1])
  {
    hide AllDense, AllUndisturbed, Undisturbed, Run;
    RunSize(sends, moves, tables);
    MoveKind(sends, moves, tables, n);
    UndisturbedNext(sends, moves, n);
    LineGrows(sends, moves, tables, n, n + 1, "");
    if moves[n].Insert? && AllDense(tables[n].rows) {
      InsertIntoDense(sends, moves, tables, n);
    }
  }

  lemma RunSize(sends: seq<Sending>, moves: seq<Move>, tables: seq<Table>)
    requires Run(sends, moves, tables)
    ensures |tables| == |moves| + 1
  {
  }

  lemma MoveKind(sends: seq<Sending>, moves: seq<Move>, tables: seq<Table>, n: nat)
    requires Run(sends, moves, tables) && n < |moves|
    ensures moves[n].call < |sends|
    ensures moves[n].Read? ==> tables[n + 1].rows == tables[n].rows
  {
    hide MaxSeq;
  }

  lemma NothingStored(sends: seq<Sending>, moves: seq<Move>, tables: seq<Table>)
    requires Run(sends, moves, tables)
    ensures AllDense(tables[0].rows) && AllUndisturbed(sends, moves[..0])
  {
    assert Messages([]) == [];
  }
}
