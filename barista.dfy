/**
 * One run of the barista (barista.py lines 41-131): resolve the machine
 * list, retrieve the due jobs and credit their orders, then hand one job to
 * every free machine. The job table is an array updated row by row and the
 * order table a map from order ID, as the script saves them one record at a
 * time.
 */
module Barista {
  import opened Options
  import opened Tables
  import Endpoints
  import opened Retrieval
  import opened Dispatch

  /** The tables one run leaves behind: retrieval, then dispatch, unless resolution or a pass ended it. */
  function Cycle(rows: seq<Job>, orders: map<string, Order>, urls: seq<Endpoints.Url>, resolve: Endpoints.Resolver,
                 fetch: Fetch, probe: Probe, start: Start, retrieveNow: Instant, dispatchNow: Instant): Pass
  {
    match Endpoints.Expand(urls, resolve)
    case None => Pass(rows, orders, false)
    case Some(machines) =>
      var r := RetrievalPass(rows, orders, retrieveNow, fetch);
      if !r.completed then r
      else
        var d := DispatchPass(r.jobs, machines, probe, start, dispatchNow);
        Pass(d.jobs, r.orders, d.completed)
  }

  /** A run, however far it gets, leaves consistent tables consistent. */
  lemma CycleKeepsConsistent(rows: seq<Job>, orders: map<string, Order>, urls: seq<Endpoints.Url>,
                             resolve: Endpoints.Resolver, fetch: Fetch, probe: Probe, start: Start,
                             retrieveNow: Instant, dispatchNow: Instant)
    requires Consistent(rows, orders)
    ensures var c := Cycle(rows, orders, urls, resolve, fetch, probe, start, retrieveNow, dispatchNow);
      Consistent(c.jobs, c.orders)
  {
    var r := RetrievalPass(rows, orders, retrieveNow, fetch);
    RetrievalKeepsConsistent(rows, orders, retrieveNow, fetch, |rows|);
    match Endpoints.Expand(urls, resolve)
    case None =>
    case Some(machines) =>
      if r.completed {
        DispatchKeepsConsistent(r.jobs, r.orders, machines, probe, start, dispatchNow, |machines|);
      }
  }

  class Store {
    var jobs: array<Job>
    var orders: map<string, Order>

    constructor (rows: seq<Job>, orders: map<string, Order>)
      ensures fresh(jobs) && jobs[..] == rows && this.orders == orders
    {
      jobs := new Job[|rows|](i requires 0 <= i < |rows| => rows[i]);
      this.orders := orders;
    }

    /**
     * Lines 92-110 for row i: a selected row that is due is fetched, stamped
     * and saved, then credited to its order.
     */
    method RetrieveOne(i: nat, now: Instant, fetch: Fetch) returns (completed: bool)
      requires i < jobs.Length
      modifies jobs, this`orders
      ensures RetrieveRow(Pass(old(jobs[..]), old(orders), true), i, now, fetch) == Pass(jobs[..], orders, completed)
    {
      ghost var p := Pass(jobs[..], orders, true);
      var job := jobs[i];
      if job.machine.Some? && job.retrieved.None? {
        if job.ready.None? {
          // fromisoformat(None) raises
          return false;
        }
        if Second(job.ready.value) < Second(now) {
          if !fetch(job.machine.value, job.jobId) {
            return false;
          }
          job := job.(retrieved := Some(Truncate(now)));
          jobs[i] := job;
          assert jobs[..] == p.jobs[i := Stamp(p.jobs[i], now)];
          if job.orderId !in orders {
            // Order.get() raises after the row was saved
            return false;
          }
          var order := orders[job.orderId];
          order := order.(brewed := order.brewed + 1);
          if order.size == order.brewed {
            order := order.(ready := job.retrieved);
          }
          orders := orders[job.orderId := order];
        }
      }
      return true;
    }

    /**
     * Lines 91-110. The loop visits every row and acts on the selected ones,
     * which is the order the query of line 91 returns them in this model.
     */
    method Retrieve(now: Instant, fetch: Fetch) returns (completed: bool)
      modifies jobs, this`orders
      ensures RetrievalPass(old(jobs[..]), old(orders), now, fetch) == Pass(jobs[..], orders, completed)
    {
      ghost var rows0, orders0 := jobs[..], orders;
      var i := 0;
      while i < jobs.Length
        invariant 0 <= i <= jobs.Length
        invariant RetrieveUpTo(rows0, orders0, now, fetch, i) == Pass(jobs[..], orders, true)
      {
        ghost var p := Pass(jobs[..], orders, true);
        UnfoldPass(rows0, orders0, now, fetch, i + 1);
        var ok := RetrieveOne(i, now, fetch);
        assert RetrieveUpTo(rows0, orders0, now, fetch, i + 1) == Pass(jobs[..], orders, ok);
        if !ok {
          EndedRunStaysEnded(rows0, orders0, now, fetch, i + 1, jobs.Length);
          return false;
        }
        i := i + 1;
      }
      assert jobs[..] == jobs[..jobs.Length];
      return true;
    }

    /** The query of line 121: the first row without a machine, if any. */
    method FindUnassigned() returns (r: Option<nat>)
      ensures r == FirstUnassigned(jobs[..])
    {
      FirstUnassignedIsFirst(jobs[..]);
      var k := 0;
      while k < jobs.Length
        invariant 0 <= k <= jobs.Length
        invariant forall q :: 0 <= q < k ==> jobs[q].machine.Some?
      {
        if jobs[k].machine.None? {
          return Some(k);
        }
        k := k + 1;
      }
      return None;
    }

    /** Lines 116-131 for machine i: when it answers 200, hand it the first unassigned row. */
    method DispatchOne(machines: seq<string>, i: nat, probe: Probe, start: Start, now: Instant) returns (completed: bool)
      requires i < |machines|
      modifies jobs
      ensures DispatchMachine(Sweep(old(jobs[..]), true), machines, i, probe, start, now) == Sweep(jobs[..], completed)
    {
      ghost var w := Sweep(jobs[..], true);
      var status := probe(i);
      if status.None? {
        // requests.get raises
        return false;
      }
      if status.value == StatusOk {
        var found := FindUnassigned();
        if found.Some? {
          var k := found.value;
          var response := start(i, jobs[k].product);
          if response.None? {
            // the request, its JSON decoding or a missing key raises before the row is saved
            return false;
          }
          var job := jobs[k];
          job := job.(machine := Some(machines[i]));
          job := job.(jobId := response.value.jobId);
          job := job.(ready := Some(response.value.jobReady));
          job := job.(started := Some(Truncate(now)));
          jobs[k] := job;
          assert jobs[..] == w.jobs[k := Claim(w.jobs[k], machines[i], response.value, now)];
        }
      }
      return true;
    }

    /** Lines 115-131: probe each machine in list order and hand a free one the first unassigned row. */
    method Dispatch(machines: seq<string>, probe: Probe, start: Start, now: Instant) returns (completed: bool)
      modifies jobs
      ensures DispatchPass(old(jobs[..]), machines, probe, start, now) == Sweep(jobs[..], completed)
    {
      ghost var rows0 := jobs[..];
      for i := 0 to |machines|
        invariant DispatchUpTo(rows0, machines, probe, start, now, i) == Sweep(jobs[..], true)
      {
        ghost var w := Sweep(jobs[..], true);
        var ok := DispatchOne(machines, i, probe, start, now);
        assert DispatchUpTo(rows0, machines, probe, start, now, i + 1) == Sweep(jobs[..], ok);
        if !ok {
          EndedSweepStaysEnded(rows0, machines, probe, start, now, i + 1, |machines|);
          return false;
        }
      }
      return true;
    }

    /** The whole script after configuration: fan-out, retrieval, dispatch. */
    method RunCycle(urls: seq<Endpoints.Url>, resolve: Endpoints.Resolver, fetch: Fetch, probe: Probe, start: Start,
                    retrieveNow: Instant, dispatchNow: Instant) returns (completed: bool)
      modifies jobs, this`orders
      ensures Cycle(old(jobs[..]), old(orders), urls, resolve, fetch, probe, start, retrieveNow, dispatchNow)
              == Pass(jobs[..], orders, completed)
    {
      var machines := Endpoints.FanOut(urls, resolve);
      if machines.None? {
        return false;
      }
      completed := Retrieve(retrieveNow, fetch);
      if !completed {
        return;
      }
      completed := Dispatch(machines.value, probe, start, dispatchNow);
    }
  }
}
