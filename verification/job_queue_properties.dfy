/**
  Properties of the coalescing job queue: what `add` promises its callers,
  what one `_process` pass does to each job, and the two scenarios the queue
  exists for (a burst collapsing into one firing, and a recurring job).
 */
module JobQueueProperties {
  import opened JobQueue

  // ---------------------------------------------------------------------------
  // add

  /** Coalescing: a second `add` under a pending name erases every trace of
      the first one; the queue is as if only the second had been made. */
  lemma AddCoalesces(q: Queue, name: string,
                     data1: Value, callback1: FunctionRef, delay1: int, recurrent1: bool, now1: int,
                     data2: Value, callback2: FunctionRef, delay2: int, recurrent2: bool, now2: int)
    ensures Add(Add(q, name, data1, callback1, delay1, recurrent1, now1), name, data2, callback2, delay2, recurrent2, now2)
         == Add(q, name, data2, callback2, delay2, recurrent2, now2)
  {
  }

  /** A burst of requests for one name ends as if only its last request had
      been made: the earlier ones are dropped without a trace. */
  lemma {:induction false} BurstCoalesces(q: Queue, name: string, burst: seq<(Value, FunctionRef, int, bool, int)>)
    requires |burst| > 0
    ensures AddAll(q, name, burst) == AddLast(q, name, burst)
    decreases |burst|
  {
    var (d, c, dl, rc, t) := burst[0];
    if |burst| == 1 {
      assert burst[1..] == [];
    } else {
      var rest := burst[1..];
      assert rest[|rest| - 1] == burst[|burst| - 1];
      BurstCoalesces(Add(q, name, d, c, dl, rc, t), name, rest);
      var (d', c', dl', rc', t') := burst[|burst| - 1];
      AddCoalesces(q, name, d, c, dl, rc, t, d', c', dl', rc', t');
    }
  }

  /** `add` applied to each request of `burst` in turn. */
  function AddAll(q: Queue, name: string, burst: seq<(Value, FunctionRef, int, bool, int)>): Queue
    decreases |burst|
  {
    if |burst| == 0 then q
    else
      var (d, c, dl, rc, t) := burst[0];
      AddAll(Add(q, name, d, c, dl, rc, t), name, burst[1..])
  }

  /** `add` applied to the last request of `burst` only. */
  function AddLast(q: Queue, name: string, burst: seq<(Value, FunctionRef, int, bool, int)>): Queue
    requires |burst| > 0
  {
    var (d, c, dl, rc, t) := burst[|burst| - 1];
    Add(q, name, d, c, dl, rc, t)
  }

  // ---------------------------------------------------------------------------
  // _process, job by job

  /** A job that is not due, or whose name is not in the snapshot, is left
      exactly as it was. */
  lemma ProcessLeavesOthers(q: Queue, keys: seq<string>, now: int, k: string)
    requires k in q.jobs && (!Due(q.jobs[k], now) || k !in keys)
    ensures var r := AfterProcess(q, keys, now).queue;
      k in r.jobs && r.jobs[k] == q.jobs[k]
  {
  }

  /** A due recurring job stays pending, due again one period from now, with
      its payload, callback, period and record unchanged. */
  lemma ProcessReschedules(q: Queue, keys: seq<string>, now: int, k: string)
    requires k in q.jobs && k in keys && Due(q.jobs[k], now) && q.jobs[k].period != 0
    ensures var r := AfterProcess(q, keys, now).queue;
      k in r.jobs && r.jobs[k] == q.jobs[k].(when := now + q.jobs[k].period)
  {
  }

  /** A due one-shot job leaves the table, and its record, cleared, lands in
      the junkyard behind the records that were already there. */
  lemma ProcessRetires(q: Queue, keys: seq<string>, now: int, k: string)
    requires k in q.jobs && k in keys && Due(q.jobs[k], now) && q.jobs[k].period == 0
    ensures var r := AfterProcess(q, keys, now).queue;
      k !in r.jobs
      && r.junkyard[..|q.junkyard|] == q.junkyard
      && Nullify(q.jobs[k]) in r.junkyard[|q.junkyard|..]
  {
    var r := AfterProcess(q, keys, now).queue;
    RetiredHolds(q.jobs, keys, now, k);
    assert r.junkyard[|q.junkyard|..] == RetiredBy(q.jobs, keys, now);
  }

  lemma {:induction false} RetiredHolds(jobs: map<string, Entry>, keys: seq<string>, now: int, k: string)
    requires k in jobs && k in keys && Due(jobs[k], now) && jobs[k].period == 0
    ensures Nullify(jobs[k]) in RetiredBy(jobs, keys, now)
    decreases |keys|
  {
    if keys[0] != k {
      RetiredHolds(jobs, keys[1..], now, k);
    }
  }

  /** The number of firings of the job `name` in a trace. */
  function Occurrences(fired: seq<Event>, name: string): nat
    decreases |fired|
  {
    if |fired| == 0 then 0
    else Occurrences(fired[..|fired| - 1], name) + (if fired[|fired| - 1].name == name then 1 else 0)
  }

  lemma {:induction false} OccurrencesAppend(a: seq<Event>, b: seq<Event>, name: string)
    ensures Occurrences(a + b, name) == Occurrences(a, name) + Occurrences(b, name)
    decreases |b|
  {
    if |b| > 0 {
      var b' := b[..|b| - 1];
      assert (a + b)[..|a + b| - 1] == a + b';
      OccurrencesAppend(a, b', name);
    } else {
      assert a + b == a;
    }
  }

  /** Each due job in the snapshot fires exactly once per pass; nothing else fires. */
  lemma {:induction false} FiresExactlyOnce(q: Queue, keys: seq<string>, now: int, name: string)
    requires NoDup(keys)
    ensures Occurrences(AfterProcess(q, keys, now).fired, name)
         == (if name in keys && name in q.jobs && Due(q.jobs[name], now) then 1 else 0)
    decreases |keys|
  {
    if |keys| > 0 {
      var k := keys[0];
      var rest := keys[1..];
      assert NoDup(rest) by {
        forall i, j | 0 <= i < j < |rest| ensures rest[i] != rest[j] {
          assert rest[i] == keys[i + 1] && rest[j] == keys[j + 1];
        }
      }
      assert k !in rest by {
        forall j | 0 <= j < |rest| ensures rest[j] != k {
          assert rest[j] == keys[j + 1];
        }
      }
      assert name in keys <==> name == k || name in rest;
      FiresExactlyOnce(q, rest, now, name);
      var tail := if k in q.jobs && Due(q.jobs[k], now) then [Fired(k, q.jobs[k].callback, q.jobs[k].data)] else [];
      OccurrencesAppend(FiredBy(q.jobs, rest, now), tail, name);
      if |tail| > 0 {
        assert tail[..0] == [];
      }
    }
  }

  /** Each firing passes the job's own payload to the job's own callback. */
  lemma {:induction false} FiredFromTable(q: Queue, keys: seq<string>, now: int)
    ensures forall e :: e in AfterProcess(q, keys, now).fired ==>
      e.name in keys && e.name in q.jobs && Due(q.jobs[e.name], now)
      && e.callback == q.jobs[e.name].callback && e.data == q.jobs[e.name].data
    decreases |keys|
  {
    if |keys| > 0 {
      FiredFromTable(q, keys[1..], now);
    }
  }

  /** With no job pending, the handler's fast path is exact: a full pass
      would have fired nothing and changed nothing either. */
  lemma IdleTickDoesNothing(q: Queue, keys: seq<string>, now: int)
    requires Valid(q) && q.jobCount == 0
    ensures AfterProcess(q, keys, now) == Outcome(q, [])
  {
    assert q.jobs == map[];
    ProcessEmptyTable(q, keys, now);
  }

  /** `period` is both the interval and the recurring flag, so a recurring
      request with zero delay behaves as one-shot: it is retired on its first firing. */
  lemma ZeroDelayRecurringRetires(q: Queue, name: string, data: Value, callback: FunctionRef, now: int)
    ensures var r := Add(q, name, data, callback, 0, true, now);
      var t := AfterProcess(r, [name], now);
      name !in t.queue.jobs && t.fired == [Fired(name, Obj(callback), data)]
  {
    var r := Add(q, name, data, callback, 0, true, now);
    assert [name][1..] == [];
    assert r.jobs[name].period == 0 && Due(r.jobs[name], now);
    assert FiredBy(r.jobs, [name], now) == [Fired(name, Obj(callback), data)];
  }

  // ---------------------------------------------------------------------------
  // Scenarios

  /** Two requests for "A" 50 ms apart, the handler ticking every 100 ms: the
      first callback never runs, the second runs once, at the 300 ms tick. */
  lemma BurstScenario()
    ensures var q1 := Add(Empty(), "A", Obj(1), 10, 250, false, 0);
      var q2 := Add(q1, "A", Obj(2), 11, 250, false, 50);
      var t100 := AfterProcess(q2, ["A"], 100);
      var t200 := AfterProcess(t100.queue, ["A"], 200);
      var t300 := AfterProcess(t200.queue, ["A"], 300);
      && t100 == Outcome(q2, [])
      && t200 == Outcome(q2, [])
      && t300.fired == [Fired("A", Obj(11), Obj(2))]
      && t300.queue == Queue(map[], 0, [Entry(0, "A", Null, Null, 300, 0)], 1)
  {
    var q1 := Add(Empty(), "A", Obj(1), 10, 250, false, 0);
    var q2 := Add(q1, "A", Obj(2), 11, 250, false, 50);
    var e := Entry(0, "A", Obj(2), Obj(11), 300, 0);
    assert q2 == Queue(map["A" := e], 1, [], 1);
    assert ["A"][1..] == [];
    assert ProcessedJobs(q2.jobs, ["A"], 100) == q2.jobs;
    assert ProcessedJobs(q2.jobs, ["A"], 300) == map[];
  }

  /** A recurring job for "B" every 250 ms, the handler ticking every 100 ms:
      it fires at the 300 ms tick, is due again at 550, fires at the 600 ms
      tick, and stays pending throughout. */
  lemma RecurringScenario()
    ensures var q := Add(Empty(), "B", Obj(5), 20, 250, true, 0);
      var t300 := AfterProcess(q, ["B"], 300);
      var t400 := AfterProcess(t300.queue, ["B"], 400);
      var t500 := AfterProcess(t400.queue, ["B"], 500);
      var t600 := AfterProcess(t500.queue, ["B"], 600);
      && t300.fired == [Fired("B", Obj(20), Obj(5))]
      && t300.queue.jobs["B"].when == 550
      && t400.fired == [] && t500.fired == []
      && t600.fired == [Fired("B", Obj(20), Obj(5))]
      && t600.queue == q.(jobs := map["B" := q.jobs["B"].(when := 850)])
  {
    var q := Add(Empty(), "B", Obj(5), 20, 250, true, 0);
    var e := Entry(0, "B", Obj(5), Obj(20), 250, 250);
    assert q == Queue(map["B" := e], 1, [], 1);
    assert ["B"][1..] == [];
    var q300 := q.(jobs := map["B" := e.(when := 550)]);
    assert ProcessedJobs(q.jobs, ["B"], 300) == q300.jobs;
    assert ProcessedJobs(q300.jobs, ["B"], 400) == q300.jobs;
    assert ProcessedJobs(q300.jobs, ["B"], 600) == map["B" := e.(when := 850)];
  }
}
