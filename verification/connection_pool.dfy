/**
 * The data logger's connection pool: a queue holding at most `pool_size`
 * open connections. A caller takes one (or, when none is free within the
 * wait, opens a temporary one) and hands it back afterwards; a connection
 * handed back to a full pool is closed instead. Connections are numbered;
 * opening one takes a number not yet in use.
 */
module ConnectionPool {
  import opened Wrappers
  import BoundedQueue

  type Conn = nat
  type Pool = BoundedQueue.Queue<Conn>

  const DefaultPoolSize := 5

  /** `init_connection_pool`: `pool_size` connections, numbered from `first`, in a queue of that capacity. */
  function InitPool(size: int, first: nat): (q: Pool)
    ensures BoundedQueue.Valid(q) && q.maxsize == size
    ensures |q.items| == (if size > 0 then size else 0)
    ensures forall i :: 0 <= i < |q.items| ==> q.items[i] == first + i
  {
    BoundedQueue.Queue(size, Fresh(first, if size > 0 then size else 0))
  }

  function Fresh(first: nat, n: nat): (r: seq<Conn>)
    ensures |r| == n && forall i :: 0 <= i < n ==> r[i] == first + i
  {
    if n == 0 then [] else Fresh(first, n - 1) + [first + n - 1]
  }

  /** What `get_connection` yields: a pooled connection, or a temporary one when the pool stayed empty. */
  datatype Lease = Lease(conn: Conn, temporary: bool, pool: Pool)

  /** Entering `get_connection`; `spare` names the connection opened if the pool is empty. */
  function Acquire(q: Pool, spare: Conn): (r: Lease)
    ensures r.temporary <==> |q.items| == 0
    ensures r.temporary ==> r.conn == spare && r.pool == q
    ensures !r.temporary ==> r.conn == q.items[0] && r.pool.items == q.items[1..] && r.pool.maxsize == q.maxsize
    ensures BoundedQueue.Valid(q) ==> BoundedQueue.Valid(r.pool)
  {
    match BoundedQueue.GetNowait(q)
    case Ok((c, rest)) => Lease(c, false, rest)
    case Err(_) => Lease(spare, true, q)
  }

  /** Leaving `get_connection`: the connection goes back to the pool, or is closed when the pool is full. */
  function Release(q: Pool, c: Conn): (r: (Pool, bool))
    ensures r.1 <==> BoundedQueue.IsFull(q)
    ensures r.1 ==> r.0 == q
    ensures !r.1 ==> r.0.items == q.items + [c] && r.0.maxsize == q.maxsize
    ensures BoundedQueue.Valid(q) ==> BoundedQueue.Valid(r.0)
  {
    match BoundedQueue.PutNowait(q, c)
    case Ok(q') => (q', false)
    case Err(_) => (q, true)
  }

  /** One step of some thread: entering or leaving `get_connection`. */
  datatype Event = Get(spare: Conn) | Put(conn: Conn)

  function StepPool(q: Pool, e: Event): Pool {
    match e
    case Get(spare) => Acquire(q, spare).pool
    case Put(c) => Release(q, c).0
  }

  function RunPool(q: Pool, events: seq<Event>): Pool
  {
    if |events| == 0 then q else StepPool(RunPool(q, events[..|events| - 1]), events[|events| - 1])
  }

  /**
   * However the threads interleave, the pool never holds more than
   * `pool_size` connections and never changes its capacity.
   */
  lemma {:induction false} PoolNeverOverfills(size: int, first: nat, events: seq<Event>)
    ensures BoundedQueue.Valid(RunPool(InitPool(size, first), events))
    ensures RunPool(InitPool(size, first), events).maxsize == size
    ensures size > 0 ==> |RunPool(InitPool(size, first), events).items| <= size
    decreases |events|
  {
    if |events| > 0 {
      PoolNeverOverfills(size, first, events[..|events| - 1]);
    }
  }

  /**
   * Used alone, one `with get_connection()` block hands the same pooled
   * connection back (it moves to the back of the queue); from an empty pool
   * the temporary connection is kept in the pool rather than closed.
   */
  lemma UseAloneRotates(q: Pool, spare: Conn)
    requires BoundedQueue.Valid(q)
    ensures var l := Acquire(q, spare);
      var (q', closed) := Release(l.pool, l.conn);
      !closed && q'.maxsize == q.maxsize &&
      (|q.items| > 0 ==> q'.items == q.items[1..] + [q.items[0]]) &&
      (|q.items| == 0 ==> q'.items == [spare])
  {
  }

  /** `close`: take every pooled connection out and close it, oldest first. */
  method Close(q: Pool) returns (closed: seq<Conn>, r: Pool)
    ensures closed == q.items
    ensures r.items == [] && r.maxsize == q.maxsize
  {
    r := q;
    closed := [];
    while |r.items| > 0
      invariant closed + r.items == q.items
      invariant r.maxsize == q.maxsize
      decreases |r.items|
    {
      var got := BoundedQueue.GetNowait(r);
      var (c, rest) := got.value;
      closed := closed + [c];
      r := rest;
    }
  }
}
