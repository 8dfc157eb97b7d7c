/**
 * The data logger's background loop (`process_batches`) as a step function.
 * Each iteration either receives an operation from the queue or times out
 * after a second with nothing to read; the clock reading at that moment is
 * part of the event. Items collect in a batch that is written with the
 * (corrected) `_process_batch` when it reaches `batch_size`, when more than
 * `batch_timeout` seconds have passed since the last write, or when the
 * queue goes idle.
 */
module BatchWriter {
  import opened Database

  const BatchSize := 50
  const BatchTimeout := 5.0

  datatype Writer = Writer(batch: seq<Op>, lastFlush: real, tables: Tables)

  /** The outcome of `batch_queue.get(timeout=1.0)` and the `time.time()` reading that follows it. */
  datatype Event = Received(op: Op, now: real) | Idle(now: real)

  function Start(t: Tables, now: real): (w: Writer)
    ensures w.batch == [] && w.tables == t
  {
    Writer([], now, t)
  }

  /** The operations a run of events takes off the queue, in order. */
  function ItemsOf(events: seq<Event>): seq<Op> {
    if |events| == 0 then []
    else ItemsOf(events[..|events| - 1]) + (if events[|events| - 1].Received? then [events[|events| - 1].op] else [])
  }

  /** Write the batch and restart the timer. */
  function Flush(w: Writer, now: real): (r: Writer)
    ensures r.batch == [] && r.lastFlush == now
    ensures r.tables == ProcessBatch(w.tables, w.batch)
  {
    Writer([], now, ProcessBatch(w.tables, w.batch))
  }

  /** One iteration of the loop. */
  function Step(w: Writer, e: Event): (r: Writer)
    ensures e.Idle? && w.batch == [] ==> r == w
    ensures e.Idle? && w.batch != [] ==> r == Flush(w, e.now)
    ensures e.Received? ==>
      var full := w.batch + [e.op];
      if |full| >= BatchSize || e.now - w.lastFlush > BatchTimeout
      then r.batch == [] && r.tables == ProcessBatch(w.tables, full) && r.lastFlush == e.now
      else r == w.(batch := full)
  {
    match e
    case Received(op, now) =>
      var full := w.(batch := w.batch + [op]);
      if |full.batch| >= BatchSize || now - w.lastFlush > BatchTimeout then Flush(full, now) else full
    case Idle(now) =>
      if |w.batch| > 0 then Flush(w, now) else w
  }

  /** Writing the pending batch now would leave the tables as writing everything received so far. */
  predicate Conserves(w: Writer, start: Writer, events: seq<Event>) {
    ProcessBatch(w.tables, w.batch) == ProcessBatch(start.tables, start.batch + ItemsOf(events))
  }

  lemma ProcessBatchEmpty(t: Tables)
    ensures ProcessBatch(t, []) == t
  {
  }

  /**
   * A step keeps the batch below `batch_size`, and loses or duplicates no
   * operation: what was written plus what is pending is everything received.
   */
  lemma StepPreserves(w: Writer, e: Event)
    requires |w.batch| < BatchSize
    ensures |Step(w, e).batch| < BatchSize
    ensures ProcessBatch(Step(w, e).tables, Step(w, e).batch) == ProcessBatch(w.tables, w.batch + ItemsOf([e]))
  {
    var r := Step(w, e);
    assert [e][..0] == [];
    match e
    case Received(op, now) =>
      assert ItemsOf([e]) == [op];
      if r.batch == [] {
        ProcessBatchEmpty(r.tables);
      }
    case Idle(now) =>
      assert ItemsOf([e]) == [];
      assert w.batch + [] == w.batch;
      if w.batch != [] {
        ProcessBatchEmpty(r.tables);
      }
  }

  /**
   * `process_batches` over a run of events. Afterwards the pending batch
   * holds fewer than `batch_size` operations and every operation received
   * has been written or is pending, in order; after an idle timeout
   * everything received has been written.
   */
  method Run(w: Writer, events: seq<Event>) returns (r: Writer)
    requires |w.batch| < BatchSize
    ensures |r.batch| < BatchSize
    ensures Conserves(r, w, events)
    ensures |events| > 0 && events[|events| - 1].Idle? ==>
      r.batch == [] && r.tables == ProcessBatch(w.tables, w.batch + ItemsOf(events))
  {
    r := w;
    var i := 0;
    assert events[..0] == [] && w.batch + [] == w.batch;
    while i < |events|
      invariant 0 <= i <= |events|
      invariant |r.batch| < BatchSize
      invariant Conserves(r, w, events[..i])
      invariant i > 0 && events[i - 1].Idle? ==> r.batch == []
    {
      StepConserves(r, w, events, i);
      r := Step(r, events[i]);
      i := i + 1;
    }
    assert events[..|events|] == events;
    if |events| > 0 && events[|events| - 1].Idle? {
      ProcessBatchEmpty(r.tables);
    }
  }

  lemma ItemsOfSnoc(events: seq<Event>, i: nat)
    requires i < |events|
    ensures ItemsOf(events[..i + 1]) == ItemsOf(events[..i]) + ItemsOf([events[i]])
  {
    var e := events[i];
    assert events[..i + 1][..i] == events[..i];
    assert [e][..0] == [];
  }

  /** The loop body keeps the conservation invariant. */
  lemma StepConserves(r: Writer, w: Writer, events: seq<Event>, i: nat)
    requires i < |events| && |r.batch| < BatchSize
    requires Conserves(r, w, events[..i])
    ensures |Step(r, events[i]).batch| < BatchSize
    ensures Conserves(Step(r, events[i]), w, events[..i + 1])
  {
    var e := events[i];
    StepPreserves(r, e);
    ItemsOfSnoc(events, i);
    var prefix := w.batch + ItemsOf(events[..i]);
    ProcessBatchSplit(w.tables, prefix, ItemsOf([e]));
    ProcessBatchSplit(r.tables, r.batch, ItemsOf([e]));
    assert w.batch + ItemsOf(events[..i + 1]) == prefix + ItemsOf([e]);
  }

  /** A full batch is written as soon as its fiftieth operation arrives, whatever the clock says. */
  lemma FullBatchFlushes(w: Writer, op: Op, now: real)
    requires |w.batch| == BatchSize - 1
    ensures Step(w, Received(op, now)).batch == []
    ensures Step(w, Received(op, now)).tables == ProcessBatch(w.tables, w.batch + [op])
  {
  }

  /**
   * With the missing branch restored, an emergency event that is received
   * and followed by an idle timeout is in the emergency table.
   */
  lemma EmergencyEventWritten(t: Tables, e: EmergencyRow, t0: real, t1: real, t2: real)
    ensures var w := Step(Step(Start(t, t0), Received(LogEmergencyEvent(e), t1)), Idle(t2));
      w.batch == [] && w.tables.emergencies == t.emergencies + [e]
  {
    var b := [LogEmergencyEvent(e)];
    assert b[..0] == [];
    assert EmergenciesOf(b) == [e];
  }
}
