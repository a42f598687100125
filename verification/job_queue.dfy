/**
  The coalescing job queue of js/async.js (`asyncJobEntry`, `asyncJobQueue`
  and `asyncJobQueueHandler`), as immutable state and pure transitions.

  The clock reading `Date.now()` becomes a `now` parameter, the key snapshot
  `Object.keys(jobs)` becomes a `keys` parameter, and a callback is an opaque
  reference whose invocation is recorded as a `Fired` event instead of run.
 */
module JobQueue {

  /** A JavaScript value slot: `null`, or a reference to an opaque object
      (a payload or a function). */
  datatype Value = Null | Obj(ref: nat)

  /** A reference to a callback function. */
  type FunctionRef = nat

  /** An `asyncJobEntry` record. `rid` stands for the record's object identity:
      the source never reads it, but it tells a recycled record from a freshly
      allocated one. */
  datatype Entry = Entry(rid: nat, name: string, data: Value, callback: Value, when: int, period: int)

  /** One call `callback(data)` made while processing the job `name`. */
  datatype Event = Fired(name: string, callback: Value, data: Value)

  /** The `asyncJobQueue` object: pending jobs by name, their count, the
      junkyard of retired records, and how many records were ever allocated. */
  datatype Queue = Queue(jobs: map<string, Entry>, jobCount: int, junkyard: seq<Entry>, nextRid: nat)

  /** A state together with the callbacks fired on the way to it, in order. */
  datatype Outcome = Outcome(queue: Queue, fired: seq<Event>)

  /** The queue as the script creates it. */
  function Empty(): (q: Queue)
    ensures Valid(q)
  {
    Queue(map[], 0, [], 0)
  }

  /** `new asyncJobEntry(name)`. */
  function NewEntry(rid: nat, name: string): Entry {
    Entry(rid, name, Null, Null, 0, 0)
  }

  /** `_nullify`: drop the references to the payload and the callback. */
  function Nullify(e: Entry): (r: Entry)
    ensures Cleared(r)
    ensures r.rid == e.rid && r.name == e.name && r.when == e.when && r.period == e.period
  {
    e.(data := Null, callback := Null)
  }

  /** A record that holds neither a payload nor a callback. */
  predicate Cleared(e: Entry) {
    e.data == Null && e.callback == Null
  }

  /** An entry whose time has come: `_process` skips exactly those with `when > now`. */
  predicate Due(e: Entry, now: int) {
    e.when <= now
  }

  // ---------------------------------------------------------------------------
  // The invariant of every reachable queue.

  /** `jobCount` is the number of pending jobs. */
  predicate Counted(q: Queue) {
    q.jobCount == |q.jobs|
  }

  /** Every pending job is filed under its own name and has a callback. */
  predicate Keyed(jobs: map<string, Entry>) {
    forall k :: k in jobs ==> jobs[k].name == k && jobs[k].callback.Obj?
  }

  /** No junkyard record keeps a payload or a callback alive. */
  predicate PoolCleared(junkyard: seq<Entry>) {
    forall i :: 0 <= i < |junkyard| ==> Cleared(junkyard[i])
  }

  /** Every record ever allocated is in exactly one place: pending under one
      name, or once in the junkyard. */
  predicate RecordsAccounted(q: Queue) {
    && (forall k :: k in q.jobs ==> q.jobs[k].rid < q.nextRid)
    && (forall i :: 0 <= i < |q.junkyard| ==> q.junkyard[i].rid < q.nextRid)
    && (forall k, k' :: k in q.jobs && k' in q.jobs && k != k' ==> q.jobs[k].rid != q.jobs[k'].rid)
    && (forall i, j :: 0 <= i < j < |q.junkyard| ==> q.junkyard[i].rid != q.junkyard[j].rid)
    && (forall k, i :: k in q.jobs && 0 <= i < |q.junkyard| ==> q.jobs[k].rid != q.junkyard[i].rid)
    && |q.jobs| + |q.junkyard| == q.nextRid
  }

  predicate Valid(q: Queue) {
    Counted(q) && Keyed(q.jobs) && PoolCleared(q.junkyard) && RecordsAccounted(q)
  }

  // ---------------------------------------------------------------------------
  // asyncJobQueue.add

  /** The field assignments `add` ends with, on whichever record it picked. */
  function Assign(job: Entry, data: Value, callback: FunctionRef, delay: int, recurrent: bool, now: int): Entry {
    job.(data := data, callback := Obj(callback), when := now + delay, period := if recurrent then delay else 0)
  }

  /** `asyncJobQueue.add(name, data, callback, delay, recurrent)` at time `now`:
      overwrite the pending job of that name, or else file a record under it,
      recycling the last junkyard record when there is one. */
  function Add(q: Queue, name: string, data: Value, callback: FunctionRef, delay: int, recurrent: bool, now: int): (r: Queue)
    // the job now holds the latest request only
    ensures name in r.jobs
    ensures r.jobs[name].data == data && r.jobs[name].callback == Obj(callback)
    ensures r.jobs[name].when == now + delay
    ensures r.jobs[name].period == (if recurrent then delay else 0)
    // exactly one name gains or keeps an entry; no other entry changes
    ensures r.jobs.Keys == q.jobs.Keys + {name}
    ensures forall k :: k in q.jobs && k != name ==> r.jobs[k] == q.jobs[k]
    ensures r.jobCount == (if name in q.jobs then q.jobCount else q.jobCount + 1)
    // a pending job is updated in place
    ensures name in q.jobs ==>
      r.jobs[name].rid == q.jobs[name].rid && r.junkyard == q.junkyard && r.nextRid == q.nextRid
    // otherwise the last junkyard record is reused ...
    ensures name !in q.jobs && |q.junkyard| > 0 ==>
      r.jobs[name].rid == q.junkyard[|q.junkyard| - 1].rid
      && r.junkyard == q.junkyard[..|q.junkyard| - 1] && r.nextRid == q.nextRid
    // ... and a record is allocated only when the junkyard is empty
    ensures r.nextRid != q.nextRid <==> name !in q.jobs && |q.junkyard| == 0
    ensures r.nextRid != q.nextRid ==> r.nextRid == q.nextRid + 1 && r.jobs[name].rid == q.nextRid
  {
    if name in q.jobs then
      var job := q.jobs[name];
      q.(jobs := q.jobs[name := Assign(job, data, callback, delay, recurrent, now)])
    else if |q.junkyard| > 0 then
      var job := q.junkyard[|q.junkyard| - 1].(name := name);
      q.(jobs := q.jobs[name := Assign(job, data, callback, delay, recurrent, now)],
         jobCount := q.jobCount + 1,
         junkyard := q.junkyard[..|q.junkyard| - 1])
    else
      var job := NewEntry(q.nextRid, name);
      q.(jobs := q.jobs[name := Assign(job, data, callback, delay, recurrent, now)],
         jobCount := q.jobCount + 1,
         nextRid := q.nextRid + 1)
  }

  /** `add` keeps the queue valid: the name stays unique, the count stays
      exact, and the record it files is taken from exactly one place. */
  lemma AddKeepsValid(q: Queue, name: string, data: Value, callback: FunctionRef, delay: int, recurrent: bool, now: int)
    requires Valid(q)
    ensures Valid(Add(q, name, data, callback, delay, recurrent, now))
  {
    var r := Add(q, name, data, callback, delay, recurrent, now);
    if name in q.jobs {
      UpdateKeepsValid(q, name, r.jobs[name]);
    } else if |q.junkyard| > 0 {
      ReuseKeepsValid(q, name, r.jobs[name]);
    } else {
      AllocateKeepsValid(q, name, r.jobs[name]);
    }
  }

  lemma UpdateKeepsValid(q: Queue, name: string, e: Entry)
    requires Valid(q) && name in q.jobs
    requires e.rid == q.jobs[name].rid && e.name == name && e.callback.Obj?
    ensures Valid(q.(jobs := q.jobs[name := e]))
  {
  }

  lemma ReuseKeepsValid(q: Queue, name: string, e: Entry)
    requires Valid(q) && name !in q.jobs && |q.junkyard| > 0
    requires e.rid == q.junkyard[|q.junkyard| - 1].rid && e.name == name && e.callback.Obj?
    ensures Valid(Queue(q.jobs[name := e], q.jobCount + 1, q.junkyard[..|q.junkyard| - 1], q.nextRid))
  {
    var last := |q.junkyard| - 1;
    var r := Queue(q.jobs[name := e], q.jobCount + 1, q.junkyard[..last], q.nextRid);
    assert |r.jobs| == |q.jobs| + 1;
    assert Counted(r) && Keyed(r.jobs);
    assert PoolCleared(r.junkyard) by {
      forall i | 0 <= i < |r.junkyard| ensures Cleared(r.junkyard[i]) {
        assert r.junkyard[i] == q.junkyard[i];
      }
    }
    forall k | k in r.jobs && k != name ensures r.jobs[k].rid != e.rid {
      assert q.jobs[k].rid != q.junkyard[last].rid;
    }
    forall i | 0 <= i < |r.junkyard| ensures e.rid != r.junkyard[i].rid {
      assert q.junkyard[i].rid != q.junkyard[last].rid;
    }
    assert RecordsAccounted(r);
  }

  lemma AllocateKeepsValid(q: Queue, name: string, e: Entry)
    requires Valid(q) && name !in q.jobs
    requires e.rid == q.nextRid && e.name == name && e.callback.Obj?
    ensures Valid(Queue(q.jobs[name := e], q.jobCount + 1, q.junkyard, q.nextRid + 1))
  {
    var r := Queue(q.jobs[name := e], q.jobCount + 1, q.junkyard, q.nextRid + 1);
    assert |r.jobs| == |q.jobs| + 1;
    assert RecordsAccounted(r);
  }

  // ---------------------------------------------------------------------------
  // asyncJobQueue._process

  /** One turn of the `_process` loop, on the job filed under `name`: skip it
      if it is not due; otherwise fire its callback, then either reschedule it
      (non-zero period) or retire its record to the junkyard. */
  function Visit(q: Queue, name: string, now: int): (o: Outcome)
    requires name in q.jobs
    ensures !Due(q.jobs[name], now) ==> o == Outcome(q, [])
    ensures Due(q.jobs[name], now) ==> o.fired == [Fired(name, q.jobs[name].callback, q.jobs[name].data)]
    ensures Valid(q) ==> Valid(o.queue)
    ensures Valid(q) ==> forall k :: k in q.jobs && k != name ==> k in o.queue.jobs && o.queue.jobs[k] == q.jobs[k]
  {
    var job := q.jobs[name];
    if job.when > now then
      Outcome(q, [])
    else
      var fired := [Fired(name, job.callback, job.data)];
      if job.period != 0 then
        Outcome(q.(jobs := q.jobs[name := job.(when := now + job.period)]), fired)
      else
        var r := q.(jobs := q.jobs - {job.name},
                    jobCount := q.jobCount - 1,
                    junkyard := q.junkyard + [Nullify(job)]);
        assert Valid(q) ==> Valid(r) by {
          if Valid(q) {
            assert r.jobs.Keys == q.jobs.Keys - {name};
            assert |r.jobs| == |q.jobs| - 1;
            assert r.junkyard[|q.junkyard|] == Nullify(job);
          }
        }
        Outcome(r, fired)
  }

  // ---------------------------------------------------------------------------
  // What a whole `_process` pass does, stated against the state it starts from.

  /** The pending jobs after visiting `keys`: due one-shot jobs are gone, due
      recurring jobs are due again one period from `now`, the rest are as they were. */
  function ProcessedJobs(jobs: map<string, Entry>, keys: seq<string>, now: int): map<string, Entry> {
    map k | k in jobs && !(k in keys && Due(jobs[k], now) && jobs[k].period == 0)
      :: if k in keys && Due(jobs[k], now) then jobs[k].(when := now + jobs[k].period) else jobs[k]
  }

  /** The callbacks fired by visiting `keys`, last key first (`while (i--)`). */
  function FiredBy(jobs: map<string, Entry>, keys: seq<string>, now: int): seq<Event>
    decreases |keys|
  {
    if |keys| == 0 then []
    else
      var k := keys[0];
      FiredBy(jobs, keys[1..], now)
      + (if k in jobs && Due(jobs[k], now) then [Fired(k, jobs[k].callback, jobs[k].data)] else [])
  }

  /** The cleared records that visiting `keys` pushes onto the junkyard, in push order. */
  function RetiredBy(jobs: map<string, Entry>, keys: seq<string>, now: int): seq<Entry>
    decreases |keys|
  {
    if |keys| == 0 then []
    else
      var k := keys[0];
      RetiredBy(jobs, keys[1..], now)
      + (if k in jobs && Due(jobs[k], now) && jobs[k].period == 0 then [Nullify(jobs[k])] else [])
  }

  /** The state and trace of one `_process` pass over the snapshot `keys`. */
  function AfterProcess(q: Queue, keys: seq<string>, now: int): Outcome {
    var retired := RetiredBy(q.jobs, keys, now);
    Outcome(Queue(ProcessedJobs(q.jobs, keys, now), q.jobCount - |retired|, q.junkyard + retired, q.nextRid),
            FiredBy(q.jobs, keys, now))
  }

  predicate NoDup(keys: seq<string>) {
    forall i, j :: 0 <= i < j < |keys| ==> keys[i] != keys[j]
  }

  /** What `Object.keys` can hand `_process`: distinct names of pending jobs. */
  predicate KeysOf(jobs: map<string, Entry>, keys: seq<string>) {
    NoDup(keys) && forall i :: 0 <= i < |keys| ==> keys[i] in jobs
  }

  /** Visiting one more key, `keys[i-1]`, after the suffix `keys[i..]`. The key
      is still untouched, and the visit extends the pass over the suffix to
      the pass over `keys[i-1..]`. */
  lemma ProcessStep(q: Queue, keys: seq<string>, i: int, now: int)
    requires Keyed(q.jobs) && KeysOf(q.jobs, keys) && 0 < i <= |keys|
    ensures var a := AfterProcess(q, keys[i..], now);
      keys[i - 1] in a.queue.jobs && a.queue.jobs[keys[i - 1]] == q.jobs[keys[i - 1]]
      && var v := Visit(a.queue, keys[i - 1], now);
      AfterProcess(q, keys[i - 1..], now) == Outcome(v.queue, a.fired + v.fired)
  {
    var k := keys[i - 1];
    var s, s' := keys[i..], keys[i - 1..];
    assert s'[0] == k && s'[1..] == s;
    assert k !in s by {
      forall j | 0 <= j < |s| ensures s[j] != k {
        assert s[j] == keys[i + j];
      }
    }
    var a := AfterProcess(q, s, now);
    var job := q.jobs[k];
    assert a.queue.jobs[k] == job;
    var v := Visit(a.queue, k, now);
    var b := AfterProcess(q, s', now);
    assert b.fired == a.fired + v.fired;
    assert b.queue.junkyard == v.queue.junkyard;
    assert b.queue.jobCount == v.queue.jobCount;
    assert b.queue.nextRid == v.queue.nextRid;
    assert b.queue.jobs == v.queue.jobs by {
      if Due(job, now) && job.period == 0 {
        assert job.name == k;
        assert v.queue.jobs == a.queue.jobs - {k};
      }
    }
  }

  /** A pass over any suffix of the snapshot keeps the queue valid. */
  lemma {:induction false} ProcessKeepsValid(q: Queue, keys: seq<string>, i: int, now: int)
    requires Valid(q) && KeysOf(q.jobs, keys) && 0 <= i <= |keys|
    ensures Valid(AfterProcess(q, keys[i..], now).queue)
    decreases |keys| - i
  {
    if i == |keys| {
      assert keys[i..] == [];
      assert ProcessedJobs(q.jobs, [], now) == q.jobs;
      assert AfterProcess(q, [], now).queue == q;
    } else {
      ProcessKeepsValid(q, keys, i + 1, now);
      ProcessStep(q, keys, i + 1, now);
    }
  }

  /** Over a table with no pending job a pass fires nothing and changes nothing. */
  lemma {:induction false} ProcessEmptyTable(q: Queue, keys: seq<string>, now: int)
    requires q.jobs == map[]
    ensures AfterProcess(q, keys, now) == Outcome(q, [])
    decreases |keys|
  {
    if |keys| > 0 {
      ProcessEmptyTable(q, keys[1..], now);
    }
    assert ProcessedJobs(q.jobs, keys, now) == q.jobs;
  }

  /** `asyncJobQueue._process()` over the snapshot `keys` at time `now`: walk
      the snapshot from its last name to its first, visiting each job. */
  method Process(q: Queue, keys: seq<string>, now: int) returns (r: Queue, fired: seq<Event>)
    requires Valid(q) && KeysOf(q.jobs, keys)
    ensures Outcome(r, fired) == AfterProcess(q, keys, now)
    ensures Valid(r)
  {
    r, fired := q, [];
    var i := |keys|;
    assert keys[i..] == [];
    assert ProcessedJobs(q.jobs, [], now) == q.jobs;
    while i > 0
      invariant 0 <= i <= |keys|
      invariant Outcome(r, fired) == AfterProcess(q, keys[i..], now)
    {
      ProcessStep(q, keys, i, now);
      i := i - 1;
      var v := Visit(r, keys[i], now);
      r, fired := v.queue, fired + v.fired;
    }
    assert keys[0..] == keys;
    ProcessKeepsValid(q, keys, 0, now);
  }

  /** `asyncJobQueueHandler()`, the timer tick: scan only when some job is pending. */
  method Handler(q: Queue, keys: seq<string>, now: int) returns (r: Queue, fired: seq<Event>)
    requires Valid(q) && KeysOf(q.jobs, keys)
    ensures q.jobCount == 0 ==> r == q && fired == []
    ensures Outcome(r, fired) == AfterProcess(q, keys, now)
    ensures Valid(r)
  {
    if q.jobCount != 0 {
      r, fired := Process(q, keys, now);
    } else {
      r, fired := q, [];
      ProcessEmptyTable(q, keys, now);
    }
  }
}
