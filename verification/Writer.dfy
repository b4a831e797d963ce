/** The durable side of the stop writer: the insert-ignore table, the session's transactions with
    their failures, the buffer in front of them and the recovery loop behind them. */
module Writer {
  import opened Domain

  /** The table's unique index. It does not mention the agency. */
  datatype RowKey = RowKey(tripId: string, serviceDate: Date, stopSequence: int)

  type Table = map<RowKey, StopEvent>

  function RowKeyOf(e: StopEvent): RowKey {
    RowKey(e.tripId, e.serviceDate, e.stopSequence)
  }

  /** INSERT .. ON CONFLICT DO NOTHING: a row whose key is taken is dropped. */
  function InsertIgnore(table: Table, rows: seq<StopEvent>): Table {
    if rows == [] then table
    else
      var before := InsertIgnore(table, rows[..|rows| - 1]);
      var e := rows[|rows| - 1];
      if RowKeyOf(e) in before then before else before[RowKeyOf(e) := e]
  }

  /** Inserting two batches in turn is inserting them as one. */
  lemma {:induction false} InsertInBatches(table: Table, a: seq<StopEvent>, b: seq<StopEvent>)
    ensures InsertIgnore(InsertIgnore(table, a), b) == InsertIgnore(table, a + b)
  {
    if b == [] {
      assert a + b == a;
    } else {
      InsertInBatches(table, a, b[..|b| - 1]);
      ConcatFront(a, b);
    }
  }

  lemma {:induction false} InsertedKeys(table: Table, rows: seq<StopEvent>)
    ensures forall k :: k in InsertIgnore(table, rows)
              <==> k in table || exists i :: 0 <= i < |rows| && RowKeyOf(rows[i]) == k
    ensures forall k | k in table :: InsertIgnore(table, rows)[k] == table[k]
  {
    if rows != [] {
      var front := rows[..|rows| - 1];
      InsertedKeys(table, front);
      assert forall i | 0 <= i < |front| :: front[i] == rows[i];
    }
  }

  /** Rows whose keys are all taken change nothing. */
  lemma {:induction false} InsertOfTakenIsVoid(table: Table, rows: seq<StopEvent>)
    requires forall i | 0 <= i < |rows| :: RowKeyOf(rows[i]) in table
    ensures InsertIgnore(table, rows) == table
  {
    if rows != [] {
      var front := rows[..|rows| - 1];
      assert forall i | 0 <= i < |front| :: front[i] == rows[i];
      InsertOfTakenIsVoid(table, front);
    }
  }

  /** Retrying a batch that took effect, with or without new events behind it, is the same as
      having inserted it once. */
  lemma RetryIsAbsorbed(table: Table, batch: seq<StopEvent>, more: seq<StopEvent>)
    ensures InsertIgnore(InsertIgnore(table, batch), batch + more) == InsertIgnore(table, batch + more)
  {
    var once := InsertIgnore(table, batch);
    InsertedKeys(table, batch);
    InsertOfTakenIsVoid(once, batch);
    InsertInBatches(once, batch, more);
    InsertInBatches(table, batch, more);
  }

  /** Into an empty table, the first event with a key is the one that stays. */
  lemma {:induction false} FirstOccurrenceWins(rows: seq<StopEvent>, i: nat)
    requires i < |rows|
    requires forall j | 0 <= j < i :: RowKeyOf(rows[j]) != RowKeyOf(rows[i])
    ensures RowKeyOf(rows[i]) in InsertIgnore(map[], rows)
    ensures InsertIgnore(map[], rows)[RowKeyOf(rows[i])] == rows[i]
  {
    InsertInBatches(map[], rows[..i + 1], rows[i + 1..]);
    assert rows == rows[..i + 1] + rows[i + 1..];
    InsertedKeys(InsertIgnore(map[], rows[..i + 1]), rows[i + 1..]);
    InsertedKeys(map[], rows[..i]);
    PrefixFront(rows, i);
  }

  /** Every row of the table is an inserted event filed under its own key. */
  lemma {:induction false} RowsWereInserted(rows: seq<StopEvent>)
    ensures forall k | k in InsertIgnore(map[], rows) ::
              InsertIgnore(map[], rows)[k] in rows && RowKeyOf(InsertIgnore(map[], rows)[k]) == k
  {
    if rows != [] {
      var front, e := rows[..|rows| - 1], rows[|rows| - 1];
      RowsWereInserted(front);
      FrontAndLast(rows);
    }
  }

  ghost predicate DistinctRows(rows: seq<StopEvent>) {
    forall i, j | 0 <= i < j < |rows| :: RowKeyOf(rows[i]) != RowKeyOf(rows[j])
  }

  /** The table holds exactly these events, one row each. */
  ghost predicate HoldsExactly(table: Table, rows: seq<StopEvent>) {
    && |table| == |rows|
    && (forall i | 0 <= i < |rows| :: RowKeyOf(rows[i]) in table && table[RowKeyOf(rows[i])] == rows[i])
    && (forall k | k in table :: table[k] in rows && RowKeyOf(table[k]) == k)
  }

  /** Every event inserted into an empty table ends up with a row of its own exactly when no two
      of them share a key. */
  lemma {:induction false} NothingDiscardedIff(rows: seq<StopEvent>)
    ensures HoldsExactly(InsertIgnore(map[], rows), rows) <==> DistinctRows(rows)
  {
    var table := InsertIgnore(map[], rows);
    if DistinctRows(rows) {
      DistinctRowsAllLand(rows);
    }
    if HoldsExactly(table, rows) && !DistinctRows(rows) {
      var i, j :| 0 <= i < j < |rows| && RowKeyOf(rows[i]) == RowKeyOf(rows[j]);
      FewerRowsThanEvents(rows, i, j);
    }
  }

  lemma {:induction false} DistinctRowsAllLand(rows: seq<StopEvent>)
    requires DistinctRows(rows)
    ensures HoldsExactly(InsertIgnore(map[], rows), rows)
  {
    if rows != [] {
      var front, e := rows[..|rows| - 1], rows[|rows| - 1];
      assert forall i | 0 <= i < |front| :: front[i] == rows[i];
      DistinctRowsAllLand(front);
      assert RowKeyOf(e) !in InsertIgnore(map[], front) by {
        InsertedKeys(map[], front);
      }
      HoldsOneMore(InsertIgnore(map[], front), front, e);
      FrontAndLast(rows);
    }
  }

  lemma HoldsOneMore(table: Table, rows: seq<StopEvent>, e: StopEvent)
    requires HoldsExactly(table, rows) && RowKeyOf(e) !in table
    ensures HoldsExactly(table[RowKeyOf(e) := e], rows + [e])
  {
    var key, table', rows' := RowKeyOf(e), table[RowKeyOf(e) := e], rows + [e];
    OneMoreKey(table, e);
    forall i | 0 <= i < |rows'|
      ensures RowKeyOf(rows'[i]) in table' && table'[RowKeyOf(rows'[i])] == rows'[i]
    {
      if i < |rows| {
        assert rows'[i] == rows[i] && RowKeyOf(rows[i]) != key;
      }
    }
    forall k | k in table'
      ensures table'[k] in rows' && RowKeyOf(table'[k]) == k
    {
      if k != key {
        assert table'[k] == table[k] && table[k] in rows;
      }
    }
  }

  lemma OneMoreKey(table: Table, e: StopEvent)
    requires RowKeyOf(e) !in table
    ensures |table[RowKeyOf(e) := e]| == |table| + 1
  {
    assert table[RowKeyOf(e) := e].Keys == table.Keys + {RowKeyOf(e)};
  }

  lemma {:induction false} AtMostOneRowEach(rows: seq<StopEvent>)
    ensures |InsertIgnore(map[], rows)| <= |rows|
  {
    if rows != [] {
      var front, e := rows[..|rows| - 1], rows[|rows| - 1];
      AtMostOneRowEach(front);
      var before := InsertIgnore(map[], front);
      assert before[RowKeyOf(e) := e].Keys == before.Keys + {RowKeyOf(e)};
    }
  }

  lemma {:induction false} FewerRowsThanEvents(rows: seq<StopEvent>, i: nat, j: nat)
    requires i < j < |rows| && RowKeyOf(rows[i]) == RowKeyOf(rows[j])
    ensures |InsertIgnore(map[], rows)| < |rows|
  {
    var front, e := rows[..|rows| - 1], rows[|rows| - 1];
    var before := InsertIgnore(map[], front);
    if j < |front| {
      FewerRowsThanEvents(front, i, j);
      assert before[RowKeyOf(e) := e].Keys == before.Keys + {RowKeyOf(e)};
    } else {
      AtMostOneRowEach(front);
      InsertedKeys(map[], front);
      assert front[i] == rows[i];
    }
  }

  // ----- transactions -----

  /** What goes wrong in a transaction: nothing, the statement, the commit, or only the report of
      a commit that took effect. */
  datatype Fault = Healthy | ExecuteFails | CommitFails | CommitTakesEffectButFails

  class Session {
    var committed: Table
    var pending: Table

    constructor ()
      ensures committed == pending == map[]
    {
      committed, pending := map[], map[];
    }

    method Execute(rows: seq<StopEvent>, fault: Fault) returns (raised: bool)
      modifies this
      ensures committed == old(committed)
      ensures raised <==> fault == ExecuteFails
      ensures pending == if raised then old(pending) else InsertIgnore(old(pending), rows)
    {
      raised := fault == ExecuteFails;
      if !raised {
        pending := InsertIgnore(pending, rows);
      }
    }

    method Commit(fault: Fault) returns (raised: bool)
      modifies this
      ensures pending == old(pending)
      ensures raised <==> fault != Healthy
      ensures committed == if fault == CommitFails || fault == ExecuteFails then old(committed) else old(pending)
    {
      if fault == Healthy || fault == CommitTakesEffectButFails {
        committed := pending;
      }
      raised := fault != Healthy;
    }

    method Rollback()
      modifies this
      ensures committed == old(committed) && pending == committed
    {
      pending := committed;
    }
  }

  class StopEventRepository {
    const session: Session

    constructor (session: Session)
      ensures this.session == session
    {
      this.session := session;
    }

    method InsertBatch(events: seq<StopEvent>, fault: Fault) returns (count: nat, raised: bool)
      modifies session
      ensures session.committed == old(session.committed)
      ensures raised <==> events != [] && fault == ExecuteFails
      ensures !raised ==> count == |events| && session.pending == InsertIgnore(old(session.pending), events)
      ensures raised ==> session.pending == old(session.pending)
    {
      var rows: seq<StopEvent> := [];
      for i := 0 to |events|
        invariant rows == events[..i]
      {
        rows := rows + [events[i]];
      }
      assert rows == events;
      if rows == [] {
        return 0, false;
      }
      raised := session.Execute(rows, fault);
      count := |rows|;
    }
  }

  // ----- the buffer -----

  const WRITER_BATCH_SIZE := 100
  const WRITER_FLUSH_INTERVAL := 10

  datatype WriteResult = Wrote(count: nat) | BatchWriteError

  class BatchWriter {
    const session: Session
    const repo: StopEventRepository
    const batchSize: nat
    const flushInterval: int
    var buffer: seq<StopEvent>
    var lastFlush: Instant
    /** Everything flushed so far, in order. */
    ghost var flushed: seq<StopEvent>
    /** How much of the buffer the table already holds, because a commit took effect but failed. */
    ghost var uncertain: nat

    /** The table is what the flushed batches, and the uncertain part of the buffer, make of an
        empty table; no transaction is open. */
    ghost predicate Valid()
      reads this, session
    {
      && repo.session == session
      && uncertain <= |buffer|
      && session.pending == session.committed == InsertIgnore(map[], flushed + buffer[..uncertain])
    }

    /** Every event ever added, in order. */
    ghost function Added(): seq<StopEvent>
      reads this
    {
      flushed + buffer
    }

    constructor (session: Session, batchSize: nat, flushInterval: int, now: Instant)
      requires session.committed == session.pending == map[]
      ensures Valid() && this.session == session && buffer == [] && flushed == []
      ensures this.batchSize == batchSize && this.flushInterval == flushInterval && lastFlush == now
    {
      this.session := session;
      repo := new StopEventRepository(session);
      this.batchSize, this.flushInterval := batchSize, flushInterval;
      buffer, lastFlush, flushed, uncertain := [], now, [], 0;
    }

    predicate ShouldFlush(now: Instant)
      reads this
    {
      |buffer| >= batchSize || now - lastFlush > flushInterval
    }

    /** Adds the events, then flushes if the buffer is full or old. */
    method AddMany(events: seq<StopEvent>, now: Instant, flushedAt: Instant, fault: Fault) returns (r: WriteResult)
      requires Valid()
      modifies this, session
      ensures Valid() && Added() == old(Added()) + events
      ensures var due := |old(buffer) + events| >= batchSize || now - old(lastFlush) > flushInterval;
              var wrote := due && old(buffer) + events != [] && fault == Healthy;
              && (r.BatchWriteError? <==> due && old(buffer) + events != [] && fault != Healthy)
              && buffer == (if wrote then [] else old(buffer) + events)
              && flushed == (if wrote then old(Added()) + events else old(flushed))
              && lastFlush == (if wrote then flushedAt else old(lastFlush))
    {
      buffer := buffer + events;
      assert buffer[..uncertain] == old(buffer)[..uncertain];
      assert Added() == old(Added()) + events;
      r := Wrote(0);
      if ShouldFlush(now) {
        r := Flush(flushedAt, fault);
      }
    }

    /** Writes the buffer out in one transaction. On failure the buffer is kept for a retry. */
    method Flush(now: Instant, fault: Fault) returns (r: WriteResult)
      requires Valid()
      modifies this, session
      ensures Valid() && Added() == old(Added())
      ensures r.BatchWriteError? <==> old(buffer) != [] && fault != Healthy
      ensures r.Wrote? ==> buffer == [] && r.count == |old(buffer)|
      ensures r.Wrote? && old(buffer) != [] ==> lastFlush == now
      ensures r.BatchWriteError? || old(buffer) == [] ==>
                buffer == old(buffer) && flushed == old(flushed) && lastFlush == old(lastFlush)
      ensures r.BatchWriteError? ==>
                session.committed == if fault == CommitTakesEffectButFails then InsertIgnore(map[], Added())
                                     else old(session.committed)
    {
      if buffer == [] {
        return Wrote(0);
      }
      RetryLands(flushed, buffer, uncertain);
      var count, raised := repo.InsertBatch(buffer, fault);
      if !raised {
        raised := session.Commit(fault);
      }
      if raised {
        session.Rollback();
        if fault == CommitTakesEffectButFails {
          uncertain := |buffer|;
        }
        assert buffer[..|buffer|] == buffer;
        return BatchWriteError;
      }
      flushed, buffer, uncertain := flushed + buffer, [], 0;
      lastFlush := now;
      return Wrote(count);
    }
  }

  /** A buffer of which a part already reached the table lands as if none of it had. */
  lemma RetryLands(flushed: seq<StopEvent>, buffer: seq<StopEvent>, uncertain: nat)
    requires uncertain <= |buffer|
    ensures InsertIgnore(InsertIgnore(map[], flushed + buffer[..uncertain]), buffer) ==
              InsertIgnore(map[], flushed + buffer)
    ensures flushed + buffer + [][..0] == flushed + buffer
  {
    var a, b := buffer[..uncertain], buffer[uncertain..];
    assert a + b == buffer;
    InsertInBatches(map[], flushed, a);
    RetryIsAbsorbed(InsertIgnore(map[], flushed), a, b);
    InsertInBatches(map[], flushed, buffer);
  }

  // ----- recovery -----

  const RETRY_BACKOFF: seq<nat> := [1, 5, 15, 30]

  /** The n-th wait of the recovery loop: the configured ones in turn, then the last for ever. */
  function RetryDelay(backoff: seq<nat>, n: nat): nat {
    if backoff == [] then 0
    else if n < |backoff| then backoff[n]
    else backoff[|backoff| - 1]
  }

  /** One turn of the recovery loop: how the transaction fares and when it is over. */
  datatype Attempt = Attempt(fault: Fault, at: Instant)

  /** Retries the flush until it succeeds or, after all `attempts`, shutdown is observed. */
  method RecoverWriter(writer: BatchWriter, attempts: seq<Attempt>) returns (recovered: bool, waits: seq<nat>)
    requires writer.Valid()
    modifies writer, writer.session
    ensures writer.Valid() && writer.Added() == old(writer.Added())
    ensures recovered
       <==> attempts != []
            && (old(writer.buffer) == [] || exists i :: 0 <= i < |attempts| && attempts[i].fault == Healthy)
    ensures if recovered then writer.buffer == [] else writer.buffer == old(writer.buffer)
    ensures forall n | 0 <= n < |waits| ::
              waits[n] == if n == 0 then 1 else if n == 1 then 5 else if n == 2 then 15 else 30
    ensures !recovered ==> |waits| == |attempts| && writer.lastFlush == old(writer.lastFlush)
    ensures recovered && old(writer.buffer) != [] ==>
              && |waits| < |attempts| && attempts[|waits|].fault == Healthy
              && (forall i | 0 <= i < |waits| :: attempts[i].fault != Healthy)
              && writer.lastFlush == attempts[|waits|].at
  {
    waits := [];
    for i := 0 to |attempts|
      invariant writer.Valid() && writer.Added() == old(writer.Added()) && writer.buffer == old(writer.buffer)
      invariant writer.lastFlush == old(writer.lastFlush)
      invariant i > 0 ==> writer.buffer != []
      invariant forall j | 0 <= j < i :: attempts[j].fault != Healthy
      invariant |waits| == i && forall n | 0 <= n < i :: waits[n] == RetryDelay(RETRY_BACKOFF, n)
    {
      var r := writer.Flush(attempts[i].at, attempts[i].fault);
      if r.Wrote? {
        return true, waits;
      }
      waits := waits + [RetryDelay(RETRY_BACKOFF, i)];
    }
    return false, waits;
  }
}
