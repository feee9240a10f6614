/**
 * The dispatch pass (barista.py lines 115-131): the machines are walked in
 * list order; each one whose status probe answers 200 is handed at most one
 * job row that has no machine yet, and that row records the machine, the
 * job handle and ready time the machine answered, and the start second.
 */
module Dispatch {
  import opened Options
  import opened Tables

  /** The status code that marks a machine as free for one job. */
  const StatusOk: int := 200

  /** The status code `GET <machines[i]>/status` answered, or None when the request raised. */
  type Probe = nat -> Option<int>

  /** The `jobId` and `jobReady` of a start-job answer. */
  datatype Reply = Reply(jobId: string, jobReady: Instant)

  /**
   * The answer of machines[i] to `POST /start-job` for a product, or None when
   * the request or its JSON decoding raised, a key was missing, or a value was
   * not a string (lines 126 and 129 concatenate both into log messages).
   */
  type Start = (nat, string) -> Option<Reply>

  /** The job rows after part of a pass; `completed` is false once an uncaught error has ended the run. */
  datatype Sweep = Sweep(jobs: seq<Job>, completed: bool)

  /** The query of line 121, `Machine is null` limited to one row: the first unassigned row. */
  function FirstUnassigned(s: seq<Job>): (r: Option<nat>)
    ensures r.Some? ==> r.value < |s| && s[r.value].machine.None?
  {
    if s == [] then None
    else if s[0].machine.None? then Some(0)
    else
      match FirstUnassigned(s[1..])
      case None => None
      case Some(i) => Some(i + 1)
  }

  /** The row found is the first without a machine, and none is found only when every row has one. */
  lemma {:induction false} FirstUnassignedIsFirst(s: seq<Job>)
    ensures var r := FirstUnassigned(s);
      && (r.Some? ==> forall k :: 0 <= k < r.value ==> s[k].machine.Some?)
      && (r.None? <==> forall k :: 0 <= k < |s| ==> s[k].machine.Some?)
    decreases |s|
  {
    if s != [] && s[0].machine.Some? {
      FirstUnassignedIsFirst(s[1..]);
      assert forall k :: 1 <= k < |s| ==> s[k] == s[1..][k - 1];
    }
  }

  /** Lines 125-130: the row records its machine, the machine's handle and ready time, and the start second. */
  function Claim(j: Job, machine: string, reply: Reply, now: Instant): (r: Job)
    ensures r.machine == Some(machine) && r.jobId == reply.jobId && r.ready == Some(reply.jobReady)
    ensures r.started.Some? && Second(r.started.value) == Second(now)
    ensures r.(machine := j.machine, jobId := j.jobId, ready := j.ready, started := j.started) == j
  {
    j.(machine := Some(machine), jobId := reply.jobId, ready := Some(reply.jobReady), started := Some(Truncate(now)))
  }

  /** The body of the loop for machine i. */
  function DispatchMachine(w: Sweep, machines: seq<string>, i: nat, probe: Probe, start: Start, now: Instant): (r: Sweep)
    requires w.completed && i < |machines|
    ensures |r.jobs| == |w.jobs|
    ensures probe(i) != Some(StatusOk) ==> r.jobs == w.jobs
  {
    match probe(i)
    case None => w.(completed := false)
    case Some(code) =>
      if code != StatusOk then w
      else
        match FirstUnassigned(w.jobs)
        case None => w
        case Some(k) =>
          match start(i, w.jobs[k].product)
          case None => w.(completed := false)
          case Some(reply) => w.(jobs := w.jobs[k := Claim(w.jobs[k], machines[i], reply, now)])
  }

  /** Machine i's turn, unless the run has already ended. */
  function Next(w: Sweep, machines: seq<string>, i: nat, probe: Probe, start: Start, now: Instant): (r: Sweep)
    requires i < |machines|
    ensures |r.jobs| == |w.jobs|
  {
    if w.completed then DispatchMachine(w, machines, i, probe, start, now) else w
  }

  /** The pass over the first n machines of the list. */
  function DispatchUpTo(jobs: seq<Job>, machines: seq<string>, probe: Probe, start: Start, now: Instant, n: nat): (r: Sweep)
    requires n <= |machines|
    ensures |r.jobs| == |jobs|
    decreases n
  {
    if n == 0 then Sweep(jobs, true)
    else Next(DispatchUpTo(jobs, machines, probe, start, now, n - 1), machines, n - 1, probe, start, now)
  }

  function DispatchPass(jobs: seq<Job>, machines: seq<string>, probe: Probe, start: Start, now: Instant): Sweep
  {
    DispatchUpTo(jobs, machines, probe, start, now, |machines|)
  }

  /** Once the run has ended, the later machines are never probed. */
  lemma {:induction false} EndedSweepStaysEnded(jobs: seq<Job>, machines: seq<string>, probe: Probe, start: Start,
                                               now: Instant, n: nat, m: nat)
    requires n <= m <= |machines| && !DispatchUpTo(jobs, machines, probe, start, now, n).completed
    ensures DispatchUpTo(jobs, machines, probe, start, now, m) == DispatchUpTo(jobs, machines, probe, start, now, n)
    decreases m
  {
    if m > n {
      EndedSweepStaysEnded(jobs, machines, probe, start, now, n, m - 1);
    }
  }

  /** Row `after` is row `before` claimed by machines[i], as lines 117-131 claim it. */
  predicate ClaimedAt(before: Job, after: Job, machines: seq<string>, i: nat, probe: Probe, start: Start, now: Instant)
    requires i < |machines|
  {
    && before.machine.None?
    && probe(i) == Some(StatusOk)
    && start(i, before.product).Some?
    && after == Claim(before, machines[i], start(i, before.product).value, now)
  }

  /**
   * What the pass does to job rows: each row is left as it was or was
   * unassigned and claimed by one of the machines probed so far that
   * answered 200, with that machine's start-job answer; a row that had a
   * machine is never touched.
   */
  lemma {:induction false} DispatchedRows(jobs: seq<Job>, machines: seq<string>, probe: Probe, start: Start,
                                         now: Instant, n: nat)
    requires n <= |machines|
    ensures var r := DispatchUpTo(jobs, machines, probe, start, now, n);
      && (forall k :: 0 <= k < |jobs| && jobs[k].machine.Some? ==> r.jobs[k] == jobs[k])
      && (forall k :: 0 <= k < |jobs| ==>
            r.jobs[k] == jobs[k] ||
            exists i :: 0 <= i < n && ClaimedAt(jobs[k], r.jobs[k], machines, i, probe, start, now))
    decreases n
  {
    if n > 0 {
      DispatchedRows(jobs, machines, probe, start, now, n - 1);
      var w := DispatchUpTo(jobs, machines, probe, start, now, n - 1);
      if w.completed && probe(n - 1) == Some(StatusOk) && FirstUnassigned(w.jobs).Some? {
        var k := FirstUnassigned(w.jobs).value;
        if start(n - 1, w.jobs[k].product).Some? {
          assert w.jobs[k] == jobs[k];
          assert ClaimedAt(jobs[k], DispatchUpTo(jobs, machines, probe, start, now, n).jobs[k],
                           machines, n - 1, probe, start, now);
        }
      }
    }
  }

  /** The rows without a machine. */
  function Unassigned(s: seq<Job>): set<nat>
  {
    set k: nat | k < |s| && s[k].machine.None?
  }

  /** The rows a pass gave a machine. */
  function Claimed(before: seq<Job>, after: seq<Job>): set<nat>
    requires |before| == |after|
  {
    set k: nat | k < |before| && before[k].machine.None? && after[k].machine.Some?
  }

  /** The positions among the first n machines whose probe answered 200. */
  function Healthy(probe: Probe, n: nat): set<nat>
  {
    set i: nat | i < n && probe(i) == Some(StatusOk)
  }

  function Min(a: int, b: int): int
  {
    if a <= b then a else b
  }

  lemma SubsetCard(a: set<nat>, b: set<nat>)
    requires a <= b
    ensures |a| <= |b|
  {
    assert b == a + (b - a);
  }

  /** The rows a pass gave to address a. */
  function ClaimedFor(before: seq<Job>, after: seq<Job>, a: string): set<nat>
    requires |before| == |after|
  {
    set k: nat | k < |before| && before[k].machine.None? && after[k].machine == Some(a)
  }

  /** The positions among the first n machines that are address a and answered 200. */
  function HealthyFor(machines: seq<string>, probe: Probe, n: nat, a: string): set<nat>
    requires n <= |machines|
  {
    set i: nat | i < n && machines[i] == a && probe(i) == Some(StatusOk)
  }

  /** The bookkeeping between the table before a pass and a table partway through it. */
  ghost predicate ClaimsTracked(jobs: seq<Job>, now: seq<Job>)
  {
    && |now| == |jobs|
    && Claimed(jobs, now) <= Unassigned(jobs)
    && Unassigned(now) == Unassigned(jobs) - Claimed(jobs, now)
  }

  /** Claiming one more unassigned row adds exactly that row to the claimed ones, and to its machine's. */
  lemma ClaimSets(jobs: seq<Job>, before: seq<Job>, k: nat, j: Job)
    requires ClaimsTracked(jobs, before) && k < |before| && before[k].machine.None? && j.machine.Some?
    ensures var after := before[k := j];
      && ClaimsTracked(jobs, after)
      && k !in Claimed(jobs, before)
      && Claimed(jobs, after) == Claimed(jobs, before) + {k}
      && (forall a :: ClaimedFor(jobs, after, a) ==
            if j.machine == Some(a) then ClaimedFor(jobs, before, a) + {k} else ClaimedFor(jobs, before, a))
  {
    var after := before[k := j];
    assert k in Unassigned(before);
    assert Claimed(jobs, after) == Claimed(jobs, before) + {k};
    assert Unassigned(after) == Unassigned(before) - {k};
    forall a
      ensures ClaimedFor(jobs, after, a) ==
              if j.machine == Some(a) then ClaimedFor(jobs, before, a) + {k} else ClaimedFor(jobs, before, a)
    {
      if j.machine == Some(a) {
        assert ClaimedFor(jobs, after, a) == ClaimedFor(jobs, before, a) + {k};
      } else {
        assert ClaimedFor(jobs, after, a) == ClaimedFor(jobs, before, a);
      }
    }
  }

  lemma NothingClaimedYet(jobs: seq<Job>)
    ensures ClaimsTracked(jobs, jobs) && Claimed(jobs, jobs) == {}
  {
    assert Claimed(jobs, jobs) == {};
  }

  /**
   * A machine's turn: it claims one row or none; it claims one only if it
   * answered 200, and does whenever one is left and the run goes on.
   */
  lemma MachineStep(jobs: seq<Job>, w: Sweep, machines: seq<string>, i: nat, probe: Probe, start: Start, now: Instant)
    requires i < |machines| && ClaimsTracked(jobs, w.jobs)
    ensures var r := Next(w, machines, i, probe, start, now);
      && ClaimsTracked(jobs, r.jobs)
      && (!w.completed ==> r == w)
      && (r.jobs != w.jobs ==> w.completed && r.completed && probe(i) == Some(StatusOk))
      && (w.completed && r.completed && probe(i) == Some(StatusOk) && Unassigned(w.jobs) != {} ==> r.jobs != w.jobs)
      && |Claimed(jobs, r.jobs)| == |Claimed(jobs, w.jobs)| + (if r.jobs == w.jobs then 0 else 1)
  {
    var r := Next(w, machines, i, probe, start, now);
    if w.completed && probe(i) == Some(StatusOk) {
      match FirstUnassigned(w.jobs)
      case None =>
        FirstUnassignedIsFirst(w.jobs);
        assert Unassigned(w.jobs) == {};
      case Some(k) =>
        match start(i, w.jobs[k].product)
        case None =>
        case Some(reply) =>
          var j := Claim(w.jobs[k], machines[i], reply, now);
          assert r.jobs == w.jobs[k := j];
          ClaimSets(jobs, w.jobs, k, j);
          assert r.jobs[k] != w.jobs[k];
    }
  }

  /** A machine's turn adds a claimed row to its own address's and to no other's. */
  lemma MachineStepFor(jobs: seq<Job>, w: Sweep, machines: seq<string>, i: nat, probe: Probe, start: Start,
                       now: Instant, a: string)
    requires i < |machines| && ClaimsTracked(jobs, w.jobs)
    ensures var r := Next(w, machines, i, probe, start, now);
      |ClaimedFor(jobs, r.jobs, a)| ==
      |ClaimedFor(jobs, w.jobs, a)| + (if r.jobs != w.jobs && machines[i] == a then 1 else 0)
  {
    var r := Next(w, machines, i, probe, start, now);
    if w.completed && probe(i) == Some(StatusOk) {
      match FirstUnassigned(w.jobs)
      case None =>
      case Some(k) =>
        match start(i, w.jobs[k].product)
        case None =>
        case Some(reply) =>
          var j := Claim(w.jobs[k], machines[i], reply, now);
          assert r.jobs == w.jobs[k := j];
          ClaimSets(jobs, w.jobs, k, j);
          assert r.jobs[k] != w.jobs[k];
          assert k !in ClaimedFor(jobs, w.jobs, a);
    }
  }

  /**
   * How many rows a pass claims: never more than the machines that answered
   * 200 nor more than the rows that were unassigned, exactly the smaller of
   * the two when the pass completes; the rows left unassigned are the
   * unassigned ones it did not claim.
   */
  lemma {:induction false} DispatchCount(jobs: seq<Job>, machines: seq<string>, probe: Probe, start: Start,
                                        now: Instant, n: nat)
    requires n <= |machines|
    ensures var r := DispatchUpTo(jobs, machines, probe, start, now, n);
      && ClaimsTracked(jobs, r.jobs)
      && |Claimed(jobs, r.jobs)| <= Min(|Healthy(probe, n)|, |Unassigned(jobs)|)
      && (r.completed ==> |Claimed(jobs, r.jobs)| == Min(|Healthy(probe, n)|, |Unassigned(jobs)|))
    decreases n
  {
    var r := DispatchUpTo(jobs, machines, probe, start, now, n);
    if n == 0 {
      NothingClaimedYet(jobs);
      assert Healthy(probe, 0) == {};
    } else {
      DispatchCount(jobs, machines, probe, start, now, n - 1);
      CountGrow(jobs, DispatchUpTo(jobs, machines, probe, start, now, n - 1), machines, n - 1, probe, start, now);
    }
  }

  /** The count after machine i's turn, from the count before it. */
  lemma CountGrow(jobs: seq<Job>, w: Sweep, machines: seq<string>, i: nat, probe: Probe, start: Start, now: Instant)
    requires i < |machines| && ClaimsTracked(jobs, w.jobs)
    requires |Claimed(jobs, w.jobs)| <= Min(|Healthy(probe, i)|, |Unassigned(jobs)|)
    requires w.completed ==> |Claimed(jobs, w.jobs)| == Min(|Healthy(probe, i)|, |Unassigned(jobs)|)
    ensures var r := Next(w, machines, i, probe, start, now);
      && ClaimsTracked(jobs, r.jobs)
      && |Claimed(jobs, r.jobs)| <= Min(|Healthy(probe, i + 1)|, |Unassigned(jobs)|)
      && (r.completed ==> |Claimed(jobs, r.jobs)| == Min(|Healthy(probe, i + 1)|, |Unassigned(jobs)|))
  {
    var r := Next(w, machines, i, probe, start, now);
    MachineStep(jobs, w, machines, i, probe, start, now);
    TrackedCounts(jobs, w.jobs);
    TrackedCounts(jobs, r.jobs);
    HealthyStep(probe, i);
    CountArith(|Claimed(jobs, w.jobs)|, |Claimed(jobs, r.jobs)|, |Healthy(probe, i)|, |Healthy(probe, i + 1)|,
               |Unassigned(jobs)|, w.completed, r.completed, probe(i) == Some(StatusOk),
               r.jobs != w.jobs, Unassigned(w.jobs) != {});
  }

  /** The counting step of DispatchCount, on the numbers alone. */
  lemma CountArith(c: int, c': int, h: int, h': int, u: int,
                   wDone: bool, rDone: bool, ok: bool, changed: bool, left: bool)
    requires c <= Min(h, u) && (wDone ==> c == Min(h, u))
    requires h' == h + (if ok then 1 else 0) && c' == c + (if changed then 1 else 0)
    requires changed ==> wDone && rDone && ok
    requires wDone && rDone && ok && left ==> changed
    requires !wDone ==> !rDone && !changed
    requires left <==> c < u
    requires c' <= u
    ensures c' <= Min(h', u) && (rDone ==> c' == Min(h', u))
  {
  }

  /** Claims are drawn from the unassigned rows: some are left exactly when fewer were claimed than there were. */
  lemma TrackedCounts(jobs: seq<Job>, now: seq<Job>)
    requires ClaimsTracked(jobs, now)
    ensures |Claimed(jobs, now)| <= |Unassigned(jobs)|
    ensures Unassigned(now) != {} <==> |Claimed(jobs, now)| < |Unassigned(jobs)|
  {
    SubsetCard(Claimed(jobs, now), Unassigned(jobs));
    if Unassigned(now) == {} {
      forall x | x in Unassigned(jobs) ensures x in Claimed(jobs, now) {
        assert x !in Unassigned(now);
      }
      SubsetCard(Unassigned(jobs), Claimed(jobs, now));
    } else {
      var k :| k in Unassigned(now);
      SubsetCard(Claimed(jobs, now), Unassigned(jobs) - {k});
    }
  }

  /** Healthy machines among the first i + 1: one more than among the first i exactly when machine i answered 200. */
  lemma HealthyStep(probe: Probe, i: nat)
    ensures |Healthy(probe, i + 1)| == |Healthy(probe, i)| + if probe(i) == Some(StatusOk) then 1 else 0
  {
    if probe(i) == Some(StatusOk) {
      assert Healthy(probe, i + 1) == Healthy(probe, i) + {i};
    } else {
      assert Healthy(probe, i + 1) == Healthy(probe, i);
    }
  }

  /**
   * One job per machine and pass: an address is given no more rows than the
   * times it appears in the list and answers 200.
   */
  lemma {:induction false} OneJobPerMachine(jobs: seq<Job>, machines: seq<string>, probe: Probe, start: Start,
                                           now: Instant, n: nat)
    requires n <= |machines|
    ensures var r := DispatchUpTo(jobs, machines, probe, start, now, n);
      forall a :: |ClaimedFor(jobs, r.jobs, a)| <= |HealthyFor(machines, probe, n, a)|
    decreases n
  {
    if n == 0 {
      forall a ensures ClaimedFor(jobs, jobs, a) == {} {}
    } else {
      OneJobPerMachine(jobs, machines, probe, start, now, n - 1);
      DispatchCount(jobs, machines, probe, start, now, n - 1);
      OneJobGrow(jobs, DispatchUpTo(jobs, machines, probe, start, now, n - 1), machines, n - 1, probe, start, now);
    }
  }

  /** The per-address bound after machine i's turn, from the bound before it. */
  lemma OneJobGrow(jobs: seq<Job>, w: Sweep, machines: seq<string>, i: nat, probe: Probe, start: Start, now: Instant)
    requires i < |machines| && ClaimsTracked(jobs, w.jobs)
    requires forall a :: |ClaimedFor(jobs, w.jobs, a)| <= |HealthyFor(machines, probe, i, a)|
    ensures var r := Next(w, machines, i, probe, start, now);
      forall a :: |ClaimedFor(jobs, r.jobs, a)| <= |HealthyFor(machines, probe, i + 1, a)|
  {
    var r := Next(w, machines, i, probe, start, now);
    MachineStep(jobs, w, machines, i, probe, start, now);
    forall a ensures |ClaimedFor(jobs, r.jobs, a)| <= |HealthyFor(machines, probe, i + 1, a)| {
      MachineStepFor(jobs, w, machines, i, probe, start, now, a);
      if machines[i] == a && probe(i) == Some(StatusOk) {
        assert HealthyFor(machines, probe, i + 1, a) == HealthyFor(machines, probe, i, a) + {i};
      } else {
        assert HealthyFor(machines, probe, i + 1, a) == HealthyFor(machines, probe, i, a);
      }
    }
  }

  /** In a list without repeats, two positions carrying the same address are the same position. */
  lemma SamePosition(machines: seq<string>, i: nat, j: nat)
    requires forall x, y :: 0 <= x < y < |machines| ==> machines[x] != machines[y]
    requires i < |machines| && j < |machines| && machines[i] == machines[j]
    ensures i == j
  {
  }

  /** With no address listed twice, no machine is handed more than one job in a pass. */
  lemma OneJobPerDistinctMachine(jobs: seq<Job>, machines: seq<string>, probe: Probe, start: Start, now: Instant)
    requires forall i, j :: 0 <= i < j < |machines| ==> machines[i] != machines[j]
    ensures var r := DispatchPass(jobs, machines, probe, start, now);
      forall a :: |ClaimedFor(jobs, r.jobs, a)| <= 1
  {
    var r := DispatchUpTo(jobs, machines, probe, start, now, |machines|);
    assert r == DispatchPass(jobs, machines, probe, start, now);
    OneJobPerMachine(jobs, machines, probe, start, now, |machines|);
    forall a ensures |ClaimedFor(jobs, r.jobs, a)| <= 1 {
      var h := HealthyFor(machines, probe, |machines|, a);
      assert |ClaimedFor(jobs, r.jobs, a)| <= |h|;
      if h != {} {
        var i0 :| i0 in h;
        forall i | i in h ensures i == i0 {
          SamePosition(machines, i, i0);
        }
        assert h <= {i0};
        SubsetCard(h, {i0});
        assert |{i0}| == 1;
      }
    }
  }

  /** A pass, completed or ended early, keeps the tables consistent. */
  lemma DispatchKeepsConsistent(jobs: seq<Job>, orders: map<string, Order>, machines: seq<string>,
                                probe: Probe, start: Start, now: Instant, n: nat)
    requires n <= |machines| && Consistent(jobs, orders)
    ensures Consistent(DispatchUpTo(jobs, machines, probe, start, now, n).jobs, orders)
  {
    var r := DispatchUpTo(jobs, machines, probe, start, now, n).jobs;
    DispatchedRows(jobs, machines, probe, start, now, n);
    forall k | 0 <= k < |jobs|
      ensures && r[k].orderId == jobs[k].orderId && r[k].retrieved == jobs[k].retrieved
              && (jobs[k].machine.Some? ==> r[k].machine.Some?)
              && (r[k].machine.Some? ==> r[k].ready.Some?)
    {
      if r[k] != jobs[k] {
        var i :| 0 <= i < n && ClaimedAt(jobs[k], r[k], machines, i, probe, start, now);
      } else {
        assert jobs[k].machine.Some? ==> jobs[k].ready.Some?;
      }
    }
    RowsKeptConsistent(jobs, r, orders);
  }
}
