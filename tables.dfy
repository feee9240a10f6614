/**
 * The two tables the barista reads and writes (barista.py lines 64-88):
 * orders, keyed by their ID, and coffee list items ("jobs"), one row per
 * product of an order. Timestamps are instants in microseconds; the columns
 * the barista writes hold them truncated to the second.
 */
module Tables {
  import opened Options

  /** Microseconds since the epoch, UTC: the resolution of Python's datetime. */
  type Instant = int

  const MicrosPerSecond: int := 1_000_000

  /** The whole second an instant falls in; the remainder of a datetime's microseconds is never negative. */
  function Second(t: Instant): int
  {
    t / MicrosPerSecond
  }

  /** `isoformat(timespec='seconds')`: the instant with its fraction of a second dropped. */
  function Truncate(t: Instant): (r: Instant)
    ensures Second(r) == Second(t) && r % MicrosPerSecond == 0
    ensures r <= t < r + MicrosPerSecond
  {
    t - t % MicrosPerSecond
  }

  /** A row of `orders`. */
  datatype Order = Order(id: string, received: Option<Instant>, ready: Option<Instant>,
                         retrieved: Option<Instant>, size: int, brewed: int)

  /**
   * A row of `coffee_list_items`. `jobId` is a placeholder until dispatch
   * overwrites it with the machine's handle, so rows are identified by their
   * position in the table, never by `jobId`.
   */
  datatype Job = Job(product: string, orderId: string, orderReceived: Instant,
                     machine: Option<string>, jobId: string, started: Option<Instant>,
                     ready: Option<Instant>, retrieved: Option<Instant>)

  /** The rows of order `id` that have not been retrieved yet. */
  function Pending(jobs: seq<Job>, id: string): set<nat>
  {
    set k: nat | k < |jobs| && jobs[k].orderId == id && jobs[k].retrieved.None?
  }

  /** Every row belongs to a known order, a retrieved row was dispatched, a dispatched row has a promised ready time. */
  ghost predicate RowsValid(jobs: seq<Job>, orders: map<string, Order>)
  {
    && (forall k :: 0 <= k < |jobs| ==> jobs[k].orderId in orders)
    && (forall k :: 0 <= k < |jobs| ==> jobs[k].retrieved.Some? ==> jobs[k].machine.Some?)
    && (forall k :: 0 <= k < |jobs| ==> jobs[k].machine.Some? ==> jobs[k].ready.Some?)
  }

  /** Each order has brewed exactly its size minus its pending rows, with a ready time exactly when it is complete. */
  ghost predicate OrdersBalanced(jobs: seq<Job>, orders: map<string, Order>)
  {
    forall id :: id in orders ==>
      && orders[id].id == id
      && 0 <= orders[id].brewed
      && orders[id].brewed + |Pending(jobs, id)| == orders[id].size
      && (orders[id].ready.Some? <==> orders[id].brewed == orders[id].size)
  }

  /** The state an order intake leaves and a cycle should keep. */
  ghost predicate Consistent(jobs: seq<Job>, orders: map<string, Order>)
  {
    RowsValid(jobs, orders) && OrdersBalanced(jobs, orders)
  }

  /**
   * A table change that keeps each row's order and retrieval stamp, never
   * takes a machine away, and gives every row with a machine a ready time,
   * keeps the tables consistent.
   */
  lemma RowsKeptConsistent(before: seq<Job>, after: seq<Job>, orders: map<string, Order>)
    requires |after| == |before| && Consistent(before, orders)
    requires forall k :: 0 <= k < |before| ==>
      && after[k].orderId == before[k].orderId && after[k].retrieved == before[k].retrieved
      && (before[k].machine.Some? ==> after[k].machine.Some?)
      && (after[k].machine.Some? ==> after[k].ready.Some?)
    ensures Consistent(after, orders)
  {
    forall id | id in orders ensures Pending(after, id) == Pending(before, id) {}
  }
}
