# Barista dispatch cycle

The SchildCafe barista is a script that runs once per cycle between a
MySQL store of coffee orders and a set of coffee machines reachable over
HTTP. One run does three things in order:

1. **Endpoint fan-out.** Every configured machine URL is rewritten once
   for each IPv4 address its host name resolves to. Only the network
   location changes, to `ip` or `ip:port`. The results are flattened into
   one machine list.
2. **Retrieval.** Every job row that has a machine and no retrieval stamp
   is checked. If its ready second lies strictly before the current second,
   the job is fetched from its machine and the row is stamped as retrieved.
   The row's order then counts one more product brewed, and is stamped
   ready when that count reaches the order's size.
3. **Dispatch.** The machine list is walked in order. Every machine whose
   status probe answers 200 is handed the first job row that has no machine
   yet. That row records the machine, the handle and ready time the machine
   answered, and the start second.

The model keeps the script's imperative form. Class `Barista.Store` holds
the job table as an array of `Job` rows and the order table as a map from
order ID. Its methods are the script's loops, and each is proved equal to
a specification function: `Retrieval.RetrievalPass`,
`Dispatch.DispatchPass` and `Barista.Cycle`. The fan-out loop
`Endpoints.FanOut` is proved equal to `Endpoints.Expand`. The properties
the script promises are lemmas about those functions.

Conventions of the model:

- **Time.** Times are instants in microseconds (`Tables.Instant`). A
  stamp written with `isoformat(timespec='seconds')` is the instant
  truncated to its second (`Tables.Truncate`). The string comparison of
  two such stamps is a comparison of their seconds (`Tables.Second`).
- **Uncaught errors.** An uncaught exception ends the run. The model
  records it as `completed == false`, together with the tables as far as
  they had been saved.
- **External effects are parameters:**
  - the DNS lookup (`Endpoints.Resolver`);
  - the retrieve-job request (`Retrieval.Fetch`);
  - the status probe of the machine at each list position
    (`Dispatch.Probe`);
  - the start-job answer (`Dispatch.Start`);
  - the clock: one `now` per pass.
- **Row identity.** Rows are identified by their index, because dispatch
  overwrites `JobID`. A query's result order is table order, so `limit(1)`
  returns the lowest-index row without a machine.
- **Consistency.** `Tables.Consistent` states what an order intake
  establishes and a run must keep:
  - every row belongs to a known order;
  - a retrieved row was dispatched;
  - a dispatched row has a ready time;
  - an order's brewed count plus its unretrieved rows equals its size;
  - an order has a ready time exactly when it is complete.

Three behaviours of the code deserve a note, because a reader might expect
otherwise:

- **Failed status probe.** It does not skip the machine: at line 117 the
  request's exception ends the run (`Dispatch.DispatchMachine`, case
  `None`).
- **Non-success retrieve response.** Its status code is never looked at:
  only a body that is not JSON raises, at line 99, and ends the run
  (`Retrieval.Fetch`).
- **Repeated addresses.** A machine can get more than one job in a pass.
  The list built at lines 41-53 can repeat an address: two URLs naming one
  host, or a resolver answering the same address twice. The loop at line
  115 probes that machine once per occurrence and can hand it one job each
  time. `Dispatch.OneJobPerMachine` bounds each address by the healthy list
  positions carrying it. `Dispatch.OneJobPerDistinctMachine` gives the
  bound of one when no address is repeated.

## Model

| member | source | states |
|---|---|---|
| Endpoints.FanOut | barista.py:41-53 | the nested loop builds exactly `Expand(urls, resolve)`, and yields None as soon as a host fails to resolve |
| Endpoints.AppendEntries | barista.py:46-53 | the inner loop appends one rendered URL per resolved address, in resolver order, to the list built so far |
| Endpoints.ExpandDefined | barista.py:41-45 | the fan-out succeeds if and only if every configured host resolves |
| Endpoints.ExpandLayout | barista.py:41-53 | in the machine list, URL i's entries, one per address in resolver order, come after those of every earlier URL and before those of every later one |
| Endpoints.ExpandConcat | barista.py:41-53 | fanning out a concatenation of URL lists is concatenating their fan-outs, and fails when either fails |
| Endpoints.EntriesAt | barista.py:46-53 | entry j of one URL's contribution is that URL with its network location replaced by address j |
| Endpoints.SubstituteKeepsAllButHost | barista.py:47-52 | a rewritten URL keeps scheme, path, params, query and fragment, and its network location reads back as the address and the original port |
| Endpoints.NetlocReadsBack | barista.py:48-51 | `ip:port` (or `ip` without a port) parses back to exactly that address and port |
| Endpoints.DecimalRoundTrip | barista.py:49 | the decimal text of a port reads back as the same number |
| Endpoints.UnparseStartsWithAuthority | barista.py:52-53 | a rendered machine URL begins with `scheme://netloc`, the base the later HTTP paths are appended to |
| Tables.Truncate | barista.py:94-95 | a second-truncated stamp lies in the same second as the instant, at or before it and less than a second before it |
| Retrieval.Stamp | barista.py:100-101 | a retrieved row is stamped with the current second, and every other field of the row is unchanged |
| Retrieval.Credit | barista.py:104-110 | the order's brewed count grows by exactly one; its ready time becomes the stamp exactly when the count now equals its size, and is otherwise kept; no other field changes |
| Retrieval.RetrievedRows | barista.py:91-101 | a pass changes only rows that have a machine, no retrieval stamp and a ready second strictly before now, and only by stamping them; a completed pass stamps every such row; rows not yet due, or due in the current second, are unchanged |
| Retrieval.RetrievedOrders | barista.py:104-110 | a completed pass adds to each order exactly the number of its rows it retrieved, stamps it ready when that count reaches its size, and leaves every other order and field unchanged |
| Retrieval.EndedRunStaysEnded | barista.py:91-110 | after an uncaught error no later row is visited |
| Retrieval.QuietPassChangesNothing | barista.py:91-96 | with no selected row due, the pass completes and changes no row and no order |
| Retrieval.RetrievalIdempotent | barista.py:91-110 | a second pass at the same second after a completed one retrieves nothing and credits no order again |
| Retrieval.RetrieveRowKeepsConsistent | barista.py:92-110 | one row's turn keeps the tables consistent, whether it ends the run or not |
| Retrieval.RetrievalKeepsConsistent | barista.py:91-110 | a retrieval pass, completed or ended early, keeps the tables consistent |
| Dispatch.FirstUnassigned | barista.py:121 | the row the query returns has no machine |
| Dispatch.FirstUnassignedIsFirst | barista.py:121 | every row before the one returned has a machine, and no row is returned exactly when every row has one |
| Dispatch.Claim | barista.py:125-131 | a claimed row records the machine's address, the answered job handle and ready time, and the start second; product, order, order-received time and retrieval stamp are unchanged |
| Dispatch.DispatchMachine | barista.py:116-131 | a machine whose status is not 200 changes no row, and a machine's turn never changes the table's size |
| Dispatch.EndedSweepStaysEnded | barista.py:115-131 | after an uncaught error no later machine is probed |
| Dispatch.DispatchedRows | barista.py:115-131 | a row that had a machine is never changed; any other row is left alone or claimed by one of the machines probed so far that answered 200, with that machine's start-job answer |
| Dispatch.MachineStep | barista.py:116-131 | a machine claims at most one row, only after answering 200 and only while the run goes on; if it answers 200 and a row is free, it does claim one |
| Dispatch.MachineStepFor | barista.py:121-125 | a machine's claim counts for its own address and no other |
| Dispatch.DispatchCount | barista.py:115-121 | a pass claims at most min(machines answering 200, unassigned rows), and exactly that many when it completes; the rows left unassigned are the unassigned ones it did not claim |
| Dispatch.OneJobPerMachine | barista.py:115-131 | an address is given no more rows than the list positions that carry it and answered 200 |
| Dispatch.OneJobPerDistinctMachine | barista.py:115-131 | when no address is listed twice, no machine is given more than one job in a pass |
| Dispatch.DispatchKeepsConsistent | barista.py:115-131 | a dispatch pass, completed or ended early, keeps the tables consistent |
| Barista.CycleKeepsConsistent | barista.py:41-131 | a whole run, however far it gets, leaves consistent tables consistent |
| Barista.Store.constructor | barista.py:64-88 | the store holds the given job rows, in a fresh array, and the given orders |
| Barista.Store.RetrieveOne | barista.py:92-110 | the loop body for row i leaves the array and map as `RetrieveRow` does, including the partial state when it raises |
| Barista.Store.Retrieve | barista.py:91-110 | the retrieval loop leaves the tables and the completion flag as `RetrievalPass` does |
| Barista.Store.FindUnassigned | barista.py:121 | the search returns `FirstUnassigned` of the current rows |
| Barista.Store.DispatchOne | barista.py:116-131 | the loop body for machine i leaves the array as `DispatchMachine` does |
| Barista.Store.Dispatch | barista.py:115-131 | the dispatch loop leaves the rows and the completion flag as `DispatchPass` does |
| Barista.Store.RunCycle | barista.py:41-131 | fan-out, retrieval and dispatch together leave the tables as `Cycle` does |

## Left out

- **Logging.** The logger set-up and every logging call are not modelled. The only effect they have on behaviour is covered elsewhere: the log concatenation at lines 126 and 129 raises when the machine's `jobId` or `jobReady` is not a string, and `Dispatch.Start` answers None for that case.
- **Configuration.** The environment variables, the JSON machine list and the database settings are not modelled. The machine list is a parameter.
- **URL parsing.** `urlparse` is not modelled. The configured URLs arrive already split (`Endpoints.Url`). Port validation and hosts that are missing or hold user info are left out too.
- **Rendering with an empty network location.** `Endpoints.Unparse` renders only URLs with a non-empty network location. The empty case, and urlunparse's special cases for schemes that expect one, cannot arise after substitution.
- **DNS.** The DNS query is the parameter `Endpoints.Resolver`. Only A records are asked for, so every address is IPv4 text without a ':'. The lemmas about reading an address back assume this.
- **HTTP and JSON.** The requests are parameters. What matters is whether each one raises, the status code of the probe, and the `jobId`/`jobReady` of the start-job answer. The body of the retrieve-job answer is never used.
- **Clock and timestamp text.**
  - The clock is one `now` per pass. The script reads it once per row for the comparison and again for the stamp at line 100, which can fall in a later second.
  - Timestamp strings are modelled as instants. Line 94 reformats `jobReady` to whole seconds, so microseconds are dropped exactly as `Tables.Second` drops them. A `+00:00` suffix also compares by its seconds, and comparing same-format stamps as text equals comparing their seconds.
  - Two kinds of `jobReady` string are not modelled. One with a non-zero UTC offset has its local wall-clock fields compared with the naive UTC `present`. One that `fromisoformat` rejects raises at line 94, and does so again on every later run.
- **Database layer.** The peewee/MySQL layer is not modelled; the tables are in memory. Query results come in table order. A row's selection depends only on that row, which earlier turns of the same loop never touch, so the lazy query at line 91 selects the same rows as a snapshot would.
- **Concurrency.** Overlapping runs and claim races between barista instances are not modelled, because the script is one sequential run without locking.
- **Repeated external calls.** `Endpoints.Resolver` and `Retrieval.Fetch` are functions of their arguments. So two URLs with the same host get the same DNS answer in the same order, and two rows with the same machine and job handle get the same retrieve outcome. The script makes a fresh request each time, and could get different answers. No lemma depends on the answers being equal. `Dispatch.Probe` and `Dispatch.Start` are keyed by list position and do not have this limit.
- **Process exit.** `sys.exit` and the process's exit status are not modelled. A run that raises ends with `completed == false`.
- Dispatch.OneJobPerMachine: it bounds each address by its healthy list positions, not by one, because the code can hand a repeated address one job per occurrence; `Dispatch.OneJobPerDistinctMachine` gives the bound of one for lists without repeats.
