/**
 * Python's `queue.Queue` used without blocking: a FIFO with an optional
 * capacity (`maxsize <= 0` means unbounded), where `put_nowait` raises Full
 * and `get_nowait` raises Empty instead of waiting.
 */
module BoundedQueue {
  import opened Wrappers

  datatype Queue<T> = Queue(maxsize: int, items: seq<T>)

  datatype QueueError = Full | Empty

  /** The capacity holds: an unbounded queue always, a bounded one while it has at most `maxsize` items. */
  predicate Valid<T>(q: Queue<T>) {
    q.maxsize <= 0 || |q.items| <= q.maxsize
  }

  /** `Queue.full()`. */
  predicate IsFull<T>(q: Queue<T>) {
    0 < q.maxsize <= |q.items|
  }

  function Create<T>(maxsize: int): (q: Queue<T>)
    ensures Valid(q) && q.items == []
  {
    Queue(maxsize, [])
  }

  /** `put_nowait(x)`: append, or Full when at capacity. */
  function PutNowait<T>(q: Queue<T>, x: T): (r: Result<Queue<T>, QueueError>)
    ensures r.Err? <==> IsFull(q)
    ensures r.Err? ==> r.error == Full
    ensures r.Ok? ==> r.value.maxsize == q.maxsize && r.value.items == q.items + [x]
    ensures Valid(q) && r.Ok? ==> Valid(r.value)
  {
    if IsFull(q) then Err(Full) else Ok(Queue(q.maxsize, q.items + [x]))
  }

  /** `get_nowait()`: the oldest item, or Empty. */
  function GetNowait<T>(q: Queue<T>): (r: Result<(T, Queue<T>), QueueError>)
    ensures r.Err? <==> |q.items| == 0
    ensures r.Err? ==> r.error == Empty
    ensures r.Ok? ==> [r.value.0] + r.value.1.items == q.items && r.value.1.maxsize == q.maxsize
    ensures Valid(q) && r.Ok? ==> Valid(r.value.1)
  {
    if |q.items| == 0 then Err(Empty) else Ok((q.items[0], Queue(q.maxsize, q.items[1..])))
  }

  /** An unbounded queue never refuses an item. */
  lemma UnboundedNeverFull<T>(q: Queue<T>, x: T)
    requires q.maxsize <= 0
    ensures PutNowait(q, x).Ok?
  {
  }

  /** First in, first out: putting then getting on an empty queue gives the item back. */
  lemma PutThenGet<T>(q: Queue<T>, x: T)
    requires q.items == [] && PutNowait(q, x).Ok?
    ensures GetNowait(PutNowait(q, x).value).Ok?
    ensures GetNowait(PutNowait(q, x).value).value.0 == x
    ensures GetNowait(PutNowait(q, x).value).value.1 == q
  {
  }
}
