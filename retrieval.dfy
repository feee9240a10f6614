/**
 * The retrieval pass (barista.py lines 91-110): every dispatched row that
 * has not been retrieved and whose ready second lies before the current
 * second is fetched from its machine, stamped as retrieved, and credited to
 * its order, which is stamped ready when its last row comes in.
 */
module Retrieval {
  import opened Options
  import opened Tables

  /**
   * Whether `GET <machine>/retrieve-job/<jobId>` went through and answered
   * with a JSON body; its status code and content are not looked at.
   */
  type Fetch = (string, string) -> bool

  /**
   * The tables after part of a pass; `completed` is false once an uncaught
   * error has ended the run, with the tables as far as they were saved.
   */
  datatype Pass = Pass(jobs: seq<Job>, orders: map<string, Order>, completed: bool)

  /** The query of line 91: dispatched and not yet retrieved. */
  predicate Selected(j: Job)
  {
    j.machine.Some? && j.retrieved.None?
  }

  /** A row the pass retrieves at `now`: selected, with a ready second strictly before the current one. */
  predicate Retrieves(j: Job, now: Instant)
  {
    Selected(j) && j.ready.Some? && Second(j.ready.value) < Second(now)
  }

  /** Line 100: the row is stamped with the current second. */
  function Stamp(j: Job, now: Instant): (r: Job)
    ensures r.retrieved.Some? && Second(r.retrieved.value) == Second(now)
    ensures r.(retrieved := j.retrieved) == j
  {
    j.(retrieved := Some(Truncate(now)))
  }

  /** Lines 105-108: one more product brewed; the order is ready at `at` when that was the last one. */
  function Credit(o: Order, at: Instant): (r: Order)
    ensures r.brewed == o.brewed + 1
    ensures r.ready == if r.brewed == o.size then Some(at) else o.ready
    ensures r.(brewed := o.brewed, ready := o.ready) == o
  {
    var brewed := o.brewed + 1;
    o.(brewed := brewed, ready := if o.size == brewed then Some(at) else o.ready)
  }

  /**
   * The body of the loop for row k. A null ready time makes fromisoformat
   * raise, a non-JSON answer makes `json()` raise, and a missing order makes
   * `get()` raise after the row was saved: each ends the run.
   */
  function RetrieveRow(p: Pass, k: nat, now: Instant, fetch: Fetch): (r: Pass)
    requires p.completed && k < |p.jobs|
    ensures |r.jobs| == |p.jobs| && r.orders.Keys == p.orders.Keys
  {
    var j := p.jobs[k];
    if !Selected(j) then p
    else if j.ready.None? then p.(completed := false)
    else if Second(now) <= Second(j.ready.value) then p
    else if !fetch(j.machine.value, j.jobId) then p.(completed := false)
    else
      var jobs := p.jobs[k := Stamp(j, now)];
      if j.orderId !in p.orders then Pass(jobs, p.orders, false)
      else Pass(jobs, p.orders[j.orderId := Credit(p.orders[j.orderId], Truncate(now))], true)
  }

  /** The pass over the first n rows of the table, in table order. */
  function RetrieveUpTo(jobs: seq<Job>, orders: map<string, Order>, now: Instant, fetch: Fetch, n: nat): (r: Pass)
    requires n <= |jobs|
    ensures |r.jobs| == |jobs| && r.orders.Keys == orders.Keys
    decreases n
  {
    if n == 0 then Pass(jobs, orders, true)
    else
      var p := RetrieveUpTo(jobs, orders, now, fetch, n - 1);
      if p.completed then RetrieveRow(p, n - 1, now, fetch) else p
  }

  function RetrievalPass(jobs: seq<Job>, orders: map<string, Order>, now: Instant, fetch: Fetch): Pass
  {
    RetrieveUpTo(jobs, orders, now, fetch, |jobs|)
  }

  /** One more row: the pass over n rows is the pass over n - 1 rows followed by row n - 1's turn. */
  lemma UnfoldPass(jobs: seq<Job>, orders: map<string, Order>, now: Instant, fetch: Fetch, n: nat)
    requires 0 < n <= |jobs|
    ensures var p := RetrieveUpTo(jobs, orders, now, fetch, n - 1);
      RetrieveUpTo(jobs, orders, now, fetch, n) == if p.completed then RetrieveRow(p, n - 1, now, fetch) else p
  {
  }

  /** Once the run has ended, the later rows are never reached. */
  lemma {:induction false} EndedRunStaysEnded(jobs: seq<Job>, orders: map<string, Order>, now: Instant,
                                             fetch: Fetch, n: nat, m: nat)
    requires n <= m <= |jobs| && !RetrieveUpTo(jobs, orders, now, fetch, n).completed
    ensures RetrieveUpTo(jobs, orders, now, fetch, m) == RetrieveUpTo(jobs, orders, now, fetch, n)
    decreases m
  {
    if m > n {
      EndedRunStaysEnded(jobs, orders, now, fetch, n, m - 1);
    }
  }

  /**
   * What the pass does to job rows: a row is either left as it was or, if it
   * is retrieved at `now`, stamped; rows not reached are untouched; a
   * completed pass stamps exactly the rows it retrieves, every selected row
   * it passed had a ready time, and every stamped row's order exists.
   */
  lemma {:induction false} RetrievedRows(jobs: seq<Job>, orders: map<string, Order>, now: Instant,
                                        fetch: Fetch, n: nat)
    requires n <= |jobs|
    ensures var r := RetrieveUpTo(jobs, orders, now, fetch, n);
      && (forall k :: n <= k < |jobs| ==> r.jobs[k] == jobs[k])
      && (forall k :: 0 <= k < n ==>
            r.jobs[k] == jobs[k] || (Retrieves(jobs[k], now) && r.jobs[k] == Stamp(jobs[k], now)))
      && (r.completed ==> forall k :: 0 <= k < n ==>
            r.jobs[k] == if Retrieves(jobs[k], now) then Stamp(jobs[k], now) else jobs[k])
      && (r.completed ==> forall k :: 0 <= k < n && Selected(jobs[k]) ==> jobs[k].ready.Some?)
      && (r.completed ==> forall k :: 0 <= k < n && Retrieves(jobs[k], now) ==>
            jobs[k].orderId in orders && fetch(jobs[k].machine.value, jobs[k].jobId))
    decreases n
  {
    if n > 0 {
      RetrievedRows(jobs, orders, now, fetch, n - 1);
      var p := RetrieveUpTo(jobs, orders, now, fetch, n - 1);
      UnfoldPass(jobs, orders, now, fetch, n);
      if p.completed {
        RowsGrow(jobs, orders, p, n, now, fetch);
      }
    }
  }

  /** The row facts after row n - 1's turn, from those before it. */
  lemma RowsGrow(jobs: seq<Job>, orders: map<string, Order>, p: Pass, n: nat, now: Instant, fetch: Fetch)
    requires 0 < n <= |jobs| == |p.jobs| && p.orders.Keys == orders.Keys && p.completed
    requires forall k :: n - 1 <= k < |jobs| ==> p.jobs[k] == jobs[k]
    requires forall k :: 0 <= k < n - 1 ==>
      p.jobs[k] == if Retrieves(jobs[k], now) then Stamp(jobs[k], now) else jobs[k]
    requires forall k :: 0 <= k < n - 1 && Selected(jobs[k]) ==> jobs[k].ready.Some?
    requires forall k :: 0 <= k < n - 1 && Retrieves(jobs[k], now) ==>
      jobs[k].orderId in orders && fetch(jobs[k].machine.value, jobs[k].jobId)
    ensures var r := RetrieveRow(p, n - 1, now, fetch);
      && (forall k :: n <= k < |jobs| ==> r.jobs[k] == jobs[k])
      && (forall k :: 0 <= k < n ==>
            r.jobs[k] == jobs[k] || (Retrieves(jobs[k], now) && r.jobs[k] == Stamp(jobs[k], now)))
      && (r.completed ==> forall k :: 0 <= k < n ==>
            r.jobs[k] == if Retrieves(jobs[k], now) then Stamp(jobs[k], now) else jobs[k])
      && (r.completed ==> forall k :: 0 <= k < n && Selected(jobs[k]) ==> jobs[k].ready.Some?)
      && (r.completed ==> forall k :: 0 <= k < n && Retrieves(jobs[k], now) ==>
            jobs[k].orderId in orders && fetch(jobs[k].machine.value, jobs[k].jobId))
  {
    var j := jobs[n - 1];
    if Retrieves(j, now) && fetch(j.machine.value, j.jobId) {
      assert RetrieveRow(p, n - 1, now, fetch).jobs == p.jobs[n - 1 := Stamp(j, now)];
    } else {
      assert RetrieveRow(p, n - 1, now, fetch).jobs == p.jobs;
    }
  }

  /** The orders side of a pass: what the rows of each order retrieved so far add to it. */
  function Tally(jobs: seq<Job>, n: nat, id: string, now: Instant): set<nat>
    requires n <= |jobs|
  {
    set k: nat | k < n && jobs[k].orderId == id && Retrieves(jobs[k], now)
  }

  /**
   * An order credited with c rows at `at`: c more brewed, and stamped ready
   * if the count passed its size on the way, otherwise its ready time kept.
   */
  function Credited(o: Order, c: nat, at: Instant): Order
  {
    o.(brewed := o.brewed + c, ready := if o.brewed < o.size <= o.brewed + c then Some(at) else o.ready)
  }

  /**
   * A completed pass adds to each order's brewed count exactly the number
   * of its rows it retrieved, stamps it ready with the retrieval second if
   * that count reached its size, and changes nothing else about any order.
   */
  lemma {:induction false} RetrievedOrders(jobs: seq<Job>, orders: map<string, Order>, now: Instant,
                                          fetch: Fetch, n: nat)
    requires n <= |jobs|
    ensures var r := RetrieveUpTo(jobs, orders, now, fetch, n);
      r.completed ==> forall id :: id in orders ==>
        r.orders[id] == Credited(orders[id], |Tally(jobs, n, id, now)|, Truncate(now))
    decreases n
  {
    var r := RetrieveUpTo(jobs, orders, now, fetch, n);
    if n > 0 && r.completed {
      var p := RetrieveUpTo(jobs, orders, now, fetch, n - 1);
      UnfoldPass(jobs, orders, now, fetch, n);
      assert p.completed;
      RetrievedOrders(jobs, orders, now, fetch, n - 1);
      RetrievedRows(jobs, orders, now, fetch, n - 1);
      OrdersGrow(jobs, orders, p, n, now, fetch);
    }
  }

  /** The orders after row n - 1's turn, from the orders before it. */
  lemma OrdersGrow(jobs: seq<Job>, orders: map<string, Order>, p: Pass, n: nat, now: Instant, fetch: Fetch)
    requires 0 < n <= |jobs| == |p.jobs| && p.jobs[n - 1] == jobs[n - 1] && p.orders.Keys == orders.Keys
    requires p.completed && RetrieveRow(p, n - 1, now, fetch).completed
    requires forall id :: id in orders ==>
      p.orders[id] == Credited(orders[id], |Tally(jobs, n - 1, id, now)|, Truncate(now))
    ensures var r := RetrieveRow(p, n - 1, now, fetch);
      forall id :: id in orders ==> r.orders[id] == Credited(orders[id], |Tally(jobs, n, id, now)|, Truncate(now))
  {
    var r := RetrieveRow(p, n - 1, now, fetch);
    var j := jobs[n - 1];
    if Retrieves(j, now) {
      assert r.orders == p.orders[j.orderId := Credit(p.orders[j.orderId], Truncate(now))];
    } else {
      assert r.orders == p.orders;
    }
    forall id | id in orders
      ensures r.orders[id] == Credited(orders[id], |Tally(jobs, n, id, now)|, Truncate(now))
    {
      TallyStep(jobs, n, id, now);
      if j.orderId == id && Retrieves(j, now) {
        CreditedOnce(orders[id], |Tally(jobs, n - 1, id, now)|, Truncate(now));
      }
    }
  }

  lemma TallyStep(jobs: seq<Job>, n: nat, id: string, now: Instant)
    requires 0 < n <= |jobs|
    ensures |Tally(jobs, n, id, now)| ==
            |Tally(jobs, n - 1, id, now)| + if jobs[n - 1].orderId == id && Retrieves(jobs[n - 1], now) then 1 else 0
  {
    var before := Tally(jobs, n - 1, id, now);
    if jobs[n - 1].orderId == id && Retrieves(jobs[n - 1], now) {
      assert Tally(jobs, n, id, now) == before + {n - 1};
    } else {
      assert Tally(jobs, n, id, now) == before;
    }
  }

  lemma CreditedOnce(o: Order, c: nat, at: Instant)
    ensures Credit(Credited(o, c, at), at) == Credited(o, c + 1, at)
  {
  }

  /** No selected row due: every selected row has a ready time at or after the current second. */
  predicate Quiet(jobs: seq<Job>, now: Instant)
  {
    forall k :: 0 <= k < |jobs| && Selected(jobs[k]) ==>
      jobs[k].ready.Some? && Second(now) <= Second(jobs[k].ready.value)
  }

  /** With no selected row due, the pass completes and changes no row and no order. */
  lemma {:induction false} QuietPassChangesNothing(jobs: seq<Job>, orders: map<string, Order>, now: Instant,
                                                  fetch: Fetch, n: nat)
    requires n <= |jobs| && Quiet(jobs, now)
    ensures RetrieveUpTo(jobs, orders, now, fetch, n) == Pass(jobs, orders, true)
    decreases n
  {
    if n > 0 {
      QuietPassChangesNothing(jobs, orders, now, fetch, n - 1);
    }
  }

  /** Running a completed pass again at the same second retrieves nothing and credits no order twice. */
  lemma RetrievalIdempotent(jobs: seq<Job>, orders: map<string, Order>, now: Instant, fetch: Fetch)
    requires RetrievalPass(jobs, orders, now, fetch).completed
    ensures var r := RetrievalPass(jobs, orders, now, fetch);
      RetrievalPass(r.jobs, r.orders, now, fetch) == r
  {
    var r := RetrievalPass(jobs, orders, now, fetch);
    RetrievedRows(jobs, orders, now, fetch, |jobs|);
    assert Quiet(r.jobs, now);
    QuietPassChangesNothing(r.jobs, r.orders, now, fetch, |jobs|);
  }

  /** One row's turn keeps the tables consistent, whether or not it ends the run. */
  lemma RetrieveRowKeepsConsistent(p: Pass, k: nat, now: Instant, fetch: Fetch)
    requires p.completed && k < |p.jobs| && Consistent(p.jobs, p.orders)
    ensures var r := RetrieveRow(p, k, now, fetch); Consistent(r.jobs, r.orders)
  {
    var j := p.jobs[k];
    if Retrieves(j, now) && fetch(j.machine.value, j.jobId) {
      var orders' := p.orders[j.orderId := Credit(p.orders[j.orderId], Truncate(now))];
      assert RetrieveRow(p, k, now, fetch) == Pass(p.jobs[k := Stamp(j, now)], orders', true);
      StampKeepsRowsValid(p.jobs, p.orders, orders', k, now);
      CreditKeepsBalanced(p.jobs, p.orders, k, now);
    }
  }

  /** Stamping a selected row keeps every row valid against an order table with the same IDs. */
  lemma StampKeepsRowsValid(jobs: seq<Job>, orders: map<string, Order>, orders': map<string, Order>, k: nat, now: Instant)
    requires RowsValid(jobs, orders) && orders'.Keys == orders.Keys && k < |jobs| && Selected(jobs[k])
    ensures RowsValid(jobs[k := Stamp(jobs[k], now)], orders')
  {
  }

  /** Stamping an unretrieved row and crediting its order keeps every order balanced. */
  lemma CreditKeepsBalanced(jobs: seq<Job>, orders: map<string, Order>, k: nat, now: Instant)
    requires OrdersBalanced(jobs, orders) && k < |jobs| && jobs[k].retrieved.None? && jobs[k].orderId in orders
    ensures var id := jobs[k].orderId;
      OrdersBalanced(jobs[k := Stamp(jobs[k], now)], orders[id := Credit(orders[id], Truncate(now))])
  {
    var id := jobs[k].orderId;
    var jobs' := jobs[k := Stamp(jobs[k], now)];
    var orders' := orders[id := Credit(orders[id], Truncate(now))];
    assert k in Pending(jobs, id);
    assert Pending(jobs', id) == Pending(jobs, id) - {k};
    forall other | other in orders'
      ensures && orders'[other].id == other
              && 0 <= orders'[other].brewed
              && orders'[other].brewed + |Pending(jobs', other)| == orders'[other].size
              && (orders'[other].ready.Some? <==> orders'[other].brewed == orders'[other].size)
    {
      if other != id {
        assert Pending(jobs', other) == Pending(jobs, other);
      }
    }
  }

  /** A pass, completed or ended early, keeps the tables consistent. */
  lemma {:induction false} RetrievalKeepsConsistent(jobs: seq<Job>, orders: map<string, Order>, now: Instant,
                                                   fetch: Fetch, n: nat)
    requires n <= |jobs| && Consistent(jobs, orders)
    ensures var r := RetrieveUpTo(jobs, orders, now, fetch, n); Consistent(r.jobs, r.orders)
    decreases n
  {
    if n > 0 {
      RetrievalKeepsConsistent(jobs, orders, now, fetch, n - 1);
      var p := RetrieveUpTo(jobs, orders, now, fetch, n - 1);
      if p.completed {
        RetrieveRowKeepsConsistent(p, n - 1, now, fetch);
        var q := RetrieveRow(p, n - 1, now, fetch);
        assert Consistent(q.jobs, q.orders);
        UnfoldPass(jobs, orders, now, fetch, n);
      } else {
        EndedRunStaysEnded(jobs, orders, now, fetch, n - 1, n);
      }
    }
  }
}
