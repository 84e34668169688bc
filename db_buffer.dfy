/**
 * The event buffer in front of the SQLite `events` table (db_buffer.py).
 *
 * The table is modelled as a sequence of rows together with the table's
 * AUTOINCREMENT counter; the Python list `self.buffer` is a `seq` field that
 * `AddEvent` and `Flush` reassign. Whether the batch insert raises is an input
 * (`insertFails`): the model does not see the database, only its answer.
 *
 * The pure functions `AddStep` and `FlushStep` say what one call does to
 * (buffer, table); the class methods are proved against them, and the
 * lemmas about several calls are stated over them.
 */
module DbBuffer {
  import opened Wrappers

  /** One buffered tuple `(timestamp, event_type, path, dest_path)`. */
  datatype Event = Event(timestamp: string, eventType: string, path: string, destPath: Option<string>)

  /** One row of the `events` table: the AUTOINCREMENT id, then the event's columns. */
  datatype Row = Row(id: int, timestamp: string, eventType: string, path: string, destPath: Option<string>)

  /** The `events` table and the largest id AUTOINCREMENT has handed out so far. */
  datatype Table = Table(rows: seq<Row>, lastId: int)

  /** The buffer contents and the table, as one value. */
  datatype State = State(buffer: seq<Event>, table: Table)

  /** What a call did to the table: nothing, inserted one batch, or raised on the insert. */
  datatype Outcome = NoWrite | Written(batch: seq<Event>) | InsertFailed

  function EventOf(r: Row): Event {
    Event(r.timestamp, r.eventType, r.path, r.destPath)
  }

  /** The stored events without their ids, in table order. */
  function Payload(rows: seq<Row>): seq<Event> {
    seq(|rows|, i requires 0 <= i < |rows| => EventOf(rows[i]))
  }

  lemma PayloadAppend(a: seq<Row>, b: seq<Row>)
    ensures Payload(a + b) == Payload(a) + Payload(b)
  {
    assert forall i :: 0 <= i < |a + b| ==> Payload(a + b)[i] == (Payload(a) + Payload(b))[i];
  }

  predicate IdsIncreasing(rows: seq<Row>) {
    forall i, j :: 0 <= i < j < |rows| ==> rows[i].id < rows[j].id
  }

  /** A table AUTOINCREMENT can have produced: positive, increasing ids, none above the counter. */
  predicate WellFormed(t: Table) {
    && 0 <= t.lastId
    && IdsIncreasing(t.rows)
    && forall i :: 0 <= i < |t.rows| ==> 0 < t.rows[i].id <= t.lastId
  }

  /** One INSERT: the new row gets the next AUTOINCREMENT id. */
  function InsertRow(t: Table, e: Event): Table {
    Table(t.rows + [Row(t.lastId + 1, e.timestamp, e.eventType, e.path, e.destPath)], t.lastId + 1)
  }

  /**
   * `executemany` of the INSERT: one INSERT per event, in the given order.
   * The old rows stay, the events follow them with consecutive fresh ids,
   * and a well-formed table stays well-formed.
   */
  function InsertAll(t: Table, batch: seq<Event>): (r: Table)
    ensures |r.rows| == |t.rows| + |batch|
    ensures r.rows[..|t.rows|] == t.rows
    ensures Payload(r.rows[|t.rows|..]) == batch
    ensures forall i :: |t.rows| <= i < |r.rows| ==> r.rows[i].id == t.lastId + 1 + (i - |t.rows|)
    ensures r.lastId == t.lastId + |batch|
    ensures WellFormed(t) ==> WellFormed(r)
    decreases |batch|
  {
    if batch == [] then t
    else
      var n := |t.rows|;
      var t1 := InsertRow(t, batch[0]);
      var r := InsertAll(t1, batch[1..]);
      assert r.rows[..n] == r.rows[..n + 1][..n];
      assert r.rows[n] == r.rows[..n + 1][n];
      assert r.rows[n..] == [r.rows[n]] + r.rows[n + 1..];
      PayloadAppend([r.rows[n]], r.rows[n + 1..]);
      assert batch == [batch[0]] + batch[1..];
      r
  }

  /**
   * `after` keeps everything `before` had, having received `added`: the old
   * rows are untouched, and the rows appended since, followed by the new
   * buffer, are the old buffer followed by `added`.
   */
  predicate Keeps(before: State, after: State, added: seq<Event>) {
    && |before.table.rows| <= |after.table.rows|
    && after.table.rows[..|before.table.rows|] == before.table.rows
    && Payload(after.table.rows[|before.table.rows|..]) + after.buffer == before.buffer + added
  }

  lemma {:induction false} KeepsTrans(a: State, b: State, c: State, x: seq<Event>, y: seq<Event>)
    requires Keeps(a, b, x) && Keeps(b, c, y)
    ensures Keeps(a, c, x + y)
  {
    var n, m := |a.table.rows|, |b.table.rows|;
    assert c.table.rows[..n] == c.table.rows[..m][..n];
    assert c.table.rows[n..] == b.table.rows[n..] + c.table.rows[m..] by {
      assert c.table.rows[..m] == b.table.rows;
    }
    PayloadAppend(b.table.rows[n..], c.table.rows[m..]);
    calc {
      Payload(c.table.rows[n..]) + c.buffer;
      Payload(b.table.rows[n..]) + (Payload(c.table.rows[m..]) + c.buffer);
      (Payload(b.table.rows[n..]) + b.buffer) + y;
    }
  }

  /** What the rows a step appends contribute, split at an intermediate state. */
  lemma SuffixPayload(a: State, b: State, c: State)
    requires |a.table.rows| <= |b.table.rows| <= |c.table.rows|
    requires c.table.rows[..|b.table.rows|] == b.table.rows
    ensures Payload(c.table.rows[|a.table.rows|..])
         == Payload(b.table.rows[|a.table.rows|..]) + Payload(c.table.rows[|b.table.rows|..])
  {
    var n, m := |a.table.rows|, |b.table.rows|;
    assert c.table.rows[n..] == b.table.rows[n..] + c.table.rows[m..];
    PayloadAppend(b.table.rows[n..], c.table.rows[m..]);
  }

  /**
   * flush(): an empty buffer is left alone; otherwise the whole buffer goes
   * to `executemany`, and `clear()` runs only when that did not raise.
   * Every event is kept, either in the table or in the buffer, in order;
   * rows are only appended; the buffer ends empty or as it was.
   */
  function FlushStep(st: State, insertFails: bool): (r: (State, Outcome))
    ensures Keeps(st, r.0, [])
    ensures WellFormed(st.table) ==> WellFormed(r.0.table)
    ensures r.1 == NoWrite <==> st.buffer == []
    ensures r.1 == InsertFailed <==> st.buffer != [] && insertFails
    ensures r.1 != Written(st.buffer) ==> r.0 == st
    ensures r.1.Written? ==> r.1.batch == st.buffer && r.0.buffer == []
  {
    if st.buffer == [] then (st, NoWrite)
    else if insertFails then (st, InsertFailed)
    else (State([], InsertAll(st.table, st.buffer)), Written(st.buffer))
  }

  /**
   * add_event(): the event goes to the tail of the buffer; when the buffer
   * length reaches `bufferSize`, the same call flushes.
   */
  function AddStep(st: State, bufferSize: int, e: Event, insertFails: bool): (r: (State, Outcome))
    // every event is kept, in order, in the table or in the buffer
    ensures Keeps(st, r.0, [e])
    ensures WellFormed(st.table) ==> WellFormed(r.0.table)
    // below the threshold the table is untouched and e is the new tail
    ensures |st.buffer| + 1 < bufferSize ==> r.1 == NoWrite && r.0 == State(st.buffer + [e], st.table)
    // at the threshold the whole old buffer plus e is written as one batch
    ensures |st.buffer| + 1 >= bufferSize && !insertFails ==>
      r.1 == Written(st.buffer + [e]) && r.0.buffer == []
    // a failed insert keeps the backlog, e included
    ensures r.1 == InsertFailed <==> |st.buffer| + 1 >= bufferSize && insertFails
    ensures r.1 == InsertFailed ==> r.0 == State(st.buffer + [e], st.table)
    // after a call that did not raise the buffer is below the threshold
    ensures r.1 != InsertFailed && bufferSize >= 1 ==> |r.0.buffer| < bufferSize
  {
    var st1 := State(st.buffer + [e], st.table);
    assert Keeps(st, st1, [e]) by {
      assert st1.table.rows[|st.table.rows|..] == [];
    }
    if |st1.buffer| >= bufferSize then
      var r := FlushStep(st1, insertFails);
      KeepsTrans(st, st1, r.0, [e], []);
      assert [e] + [] == [e];
      r
    else (st1, NoWrite)
  }

  /** A call on the buffer, with the store's answer to the insert it may make. */
  datatype Op = Add(event: Event, fails: bool) | FlushOp(fails: bool)

  /** The events an operation hands to the buffer. */
  function OpEvents(op: Op): seq<Event> {
    if op.Add? then [op.event] else []
  }

  function Step(st: State, bufferSize: int, op: Op): (r: State)
    ensures Keeps(st, r, OpEvents(op))
    ensures WellFormed(st.table) ==> WellFormed(r.table)
  {
    match op
    case Add(e, f) => AddStep(st, bufferSize, e, f).0
    case FlushOp(f) => FlushStep(st, f).0
  }

  /** The effect of a sequence of calls, one after the other. */
  function RunOps(st: State, bufferSize: int, ops: seq<Op>): State
    decreases |ops|
  {
    if ops == [] then st else RunOps(Step(st, bufferSize, ops[0]), bufferSize, ops[1..])
  }

  /** The events the `Add` calls of `ops` pass, in order. */
  function AddedBy(ops: seq<Op>): seq<Event>
    decreases |ops|
  {
    if ops == [] then [] else OpEvents(ops[0]) + AddedBy(ops[1..])
  }

  /**
   * Conservation over any run of calls, failed inserts included: the rows
   * the table gains, followed by the buffer, are the old buffer followed by
   * every added event, in order. Rows are never removed or rewritten and the
   * ids stay increasing.
   */
  lemma {:induction false} RunOpsConserves(st: State, bufferSize: int, ops: seq<Op>)
    ensures Keeps(st, RunOps(st, bufferSize, ops), AddedBy(ops))
    ensures WellFormed(st.table) ==> WellFormed(RunOps(st, bufferSize, ops).table)
    decreases |ops|
  {
    if ops == [] {
      assert st.table.rows[|st.table.rows|..] == [];
    } else {
      var next := Step(st, bufferSize, ops[0]);
      RunOpsConserves(next, bufferSize, ops[1..]);
      KeepsTrans(st, next, RunOps(st, bufferSize, ops), OpEvents(ops[0]), AddedBy(ops[1..]));
    }
  }

  /** The batches, one after the other. */
  function Flatten(bs: seq<seq<Event>>): seq<Event>
    decreases |bs|
  {
    if bs == [] then [] else Flatten(bs[..|bs| - 1]) + bs[|bs| - 1]
  }

  /**
   * N successive add_event calls with no insert failure: the resulting state
   * and the batches the calls wrote, in order.
   */
  function AddEach(st: State, bufferSize: int, es: seq<Event>): (State, seq<seq<Event>>)
    decreases |es|
  {
    if es == [] then (st, [])
    else
      var prev := AddEach(st, bufferSize, es[..|es| - 1]);
      var step := AddStep(prev.0, bufferSize, es[|es| - 1], false);
      (step.0, prev.1 + if step.1.Written? then [step.1.batch] else [])
  }

  lemma FlattenSnoc(bs: seq<seq<Event>>, b: seq<Event>)
    ensures Flatten(bs + [b]) == Flatten(bs) + b
  {
    assert (bs + [b])[..|bs|] == bs;
  }

  /**
   * The shape of the adds of `es` from `st` without insert failures, given
   * the state and batches `r` they produce: every batch holds exactly B
   * events, the table gains exactly the batches, the batches followed by the
   * buffer are the events, and fewer than B remain buffered.
   */
  predicate Shaped(st: State, bufferSize: int, es: seq<Event>, r: (State, seq<seq<Event>>)) {
    && (forall k :: 0 <= k < |r.1| ==> |r.1[k]| == bufferSize)
    && |Flatten(r.1)| == |r.1| * bufferSize
    && Keeps(st, r.0, es)
    && Payload(r.0.table.rows[|st.table.rows|..]) == Flatten(r.1)
    && Flatten(r.1) + r.0.buffer == es
    && |r.0.buffer| < bufferSize
  }

  lemma {:induction false} AddEachShape(st: State, bufferSize: int, es: seq<Event>)
    requires bufferSize >= 1 && st.buffer == []
    ensures Shaped(st, bufferSize, es, AddEach(st, bufferSize, es))
    decreases |es|
  {
    if es == [] {
      assert st.table.rows[|st.table.rows|..] == [];
    } else {
      var init, e := es[..|es| - 1], es[|es| - 1];
      assert es == init + [e];
      AddEachShape(st, bufferSize, init);
      ShapedStep(st, bufferSize, init, e, AddEach(st, bufferSize, init));
    }
  }

  /** One more add keeps the shape. */
  lemma ShapedStep(st: State, bufferSize: int, init: seq<Event>, e: Event, prev: (State, seq<seq<Event>>))
    requires bufferSize >= 1 && Shaped(st, bufferSize, init, prev)
    ensures var step := AddStep(prev.0, bufferSize, e, false);
      Shaped(st, bufferSize, init + [e], (step.0, prev.1 + if step.1.Written? then [step.1.batch] else []))
  {
    var step := AddStep(prev.0, bufferSize, e, false);
    var bs := prev.1 + if step.1.Written? then [step.1.batch] else [];
    KeepsTrans(st, prev.0, step.0, init, [e]);
    SuffixPayload(st, prev.0, step.0);
    var m := |prev.0.table.rows|;
    if step.1.Written? {
      assert Payload(step.0.table.rows[m..]) == prev.0.buffer + [e];
      FlattenSnoc(prev.1, step.1.batch);
      MulSucc(|prev.1|, bufferSize);
      assert |bs| == |prev.1| + 1;
    } else {
      assert bs == prev.1;
      assert step.0.table.rows[m..] == [];
      assert Payload(step.0.table.rows[m..]) == [];
    }
  }

  lemma MulSucc(k: int, b: int)
    ensures (k + 1) * b == k * b + b
  {
  }

  lemma DivModUnique(n: int, b: int, q: int, m: int)
    requires b > 0 && 0 <= m < b && n == q * b + m
    ensures n / b == q && n % b == m
  {
    var q', m' := n / b, n % b;
    assert (q - q') * b == m' - m;
    MulPastBound(q - q', b);
  }

  lemma MulPastBound(d: int, b: int)
    requires b > 0
    ensures d >= 1 ==> d * b >= b
    ensures d <= -1 ==> d * b <= -b
  {
  }

  /**
   * With `bufferSize = B >= 1`, N adds into an empty buffer and no insert
   * failure write exactly N / B batches, each of B events, which together are
   * the first (N / B) * B events in order; the other N % B events stay
   * buffered, and a final flush writes them.
   */
  lemma AddEachBatches(st: State, bufferSize: int, es: seq<Event>)
    requires bufferSize >= 1 && st.buffer == []
    ensures var (r, bs) := AddEach(st, bufferSize, es);
      && |st.table.rows| <= |r.table.rows|
      && |bs| == |es| / bufferSize
      && (forall k :: 0 <= k < |bs| ==> |bs[k]| == bufferSize)
      && Flatten(bs) == es[..|es| / bufferSize * bufferSize]
      && r.buffer == es[|es| / bufferSize * bufferSize..]
      && |r.buffer| == |es| % bufferSize
      && Payload(r.table.rows[|st.table.rows|..]) == Flatten(bs)
      && (r.buffer != [] ==> FlushStep(r, false).1 == Written(es[|es| / bufferSize * bufferSize..]))
  {
    var (r, bs) := AddEach(st, bufferSize, es);
    AddEachShape(st, bufferSize, es);
    assert Shaped(st, bufferSize, es, (r, bs));
    DivModUnique(|es|, bufferSize, |bs|, |r.buffer|);
    assert es[..|Flatten(bs)|] == Flatten(bs);
  }

  /**
   * Buffer size 2 and events A, B, C: the second add writes exactly [A, B]
   * and C stays buffered.
   */
  lemma ThresholdScenario(t: Table, a: Event, b: Event, c: Event)
    ensures var s1 := AddStep(State([], t), 2, a, false);
      var s2 := AddStep(s1.0, 2, b, false);
      var s3 := AddStep(s2.0, 2, c, false);
      && s1.1 == NoWrite && s2.1 == Written([a, b]) && s3.1 == NoWrite && s3.0.buffer == [c]
  {
  }

  /**
   * A failed insert keeps the backlog; the next successful flush writes the
   * whole backlog plus every event added meanwhile, as one batch.
   */
  lemma {:induction false} RetryWritesBacklog(st: State, bufferSize: int, es: seq<Event>)
    requires st.buffer != [] && |st.buffer| + |es| < bufferSize
    ensures var failed := FlushStep(st, true);
      var later := AddEach(failed.0, bufferSize, es).0;
      && failed == (st, InsertFailed)
      && later.buffer == st.buffer + es
      && FlushStep(later, false).1 == Written(st.buffer + es)
    decreases |es|
  {
    if es != [] {
      RetryWritesBacklog(st, bufferSize, es[..|es| - 1]);
      assert es == es[..|es| - 1] + [es[|es| - 1]];
    }
  }

  /**
   * The buffer object. `Added` is every event ever passed to `AddEvent`;
   * `Valid` ties it to the table and the buffer: the rows appended since
   * construction, followed by the buffer, are exactly those events in
   * order. (The source's lock is left out: calls are modelled one at a time.)
   */
  class DBBuffer {
    const dbPath: string
    const bufferSize: int
    var buffer: seq<Event>
    var table: Table
    ghost var Added: seq<Event>
    ghost const Start: State

    ghost predicate Valid()
      reads this
    {
      WellFormed(table) && Start.buffer == [] && Keeps(Start, Snapshot(), Added)
    }

    function Snapshot(): State
      reads this
    {
      State(buffer, table)
    }

    /**
     * `__init__` with `_init_db`: `CREATE TABLE IF NOT EXISTS` keeps an
     * existing table and otherwise starts an empty one.
     */
    constructor(dbPath: string, bufferSize: int, existing: Option<Table>)
      requires existing.Some? ==> WellFormed(existing.value)
      ensures Valid()
      ensures this.dbPath == dbPath && this.bufferSize == bufferSize
      ensures buffer == [] && Added == []
      ensures table == if existing.Some? then existing.value else Table([], 0)
    {
      this.dbPath := dbPath;
      this.bufferSize := bufferSize;
      buffer := [];
      var t := if existing.Some? then existing.value else Table([], 0);
      table := t;
      Start := State([], t);
      Added := [];
      new;
      assert t.rows[|t.rows|..] == [];
    }

    /** add_event(); `ok` is false when the flush it triggered raised. */
    method AddEvent(e: Event, insertFails: bool) returns (ok: bool)
      requires Valid()
      modifies this
      ensures Valid()
      ensures Added == old(Added) + [e]
      ensures Snapshot() == AddStep(old(Snapshot()), bufferSize, e, insertFails).0
      ensures ok <==> AddStep(old(Snapshot()), bufferSize, e, insertFails).1 != InsertFailed
    {
      ghost var before := Snapshot();
      buffer := buffer + [e];
      Added := Added + [e];
      assert Keeps(before, Snapshot(), [e]) by {
        assert table.rows[|table.rows|..] == [];
      }
      KeepsTrans(Start, before, Snapshot(), old(Added), [e]);
      if |buffer| >= bufferSize {
        ok := Flush(insertFails);
      } else {
        ok := true;
      }
    }

    /** flush(); `ok` is false when the batch insert raised. */
    method Flush(insertFails: bool) returns (ok: bool)
      requires Valid()
      modifies this
      ensures Valid()
      ensures Added == old(Added)
      ensures Snapshot() == FlushStep(old(Snapshot()), insertFails).0
      ensures ok <==> FlushStep(old(Snapshot()), insertFails).1 != InsertFailed
    {
      if buffer == [] {
        return true;
      }
      if insertFails {
        // executemany raised: clear() is never reached
        return false;
      }
      ghost var before := Snapshot();
      table := InsertAll(table, buffer);
      buffer := [];
      KeepsTrans(Start, before, Snapshot(), Added, []);
      assert Added + [] == Added;
      ok := true;
    }
  }
}
