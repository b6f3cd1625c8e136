/**
 * The in-memory job queue of the work-distribution service: an
 * insertion-ordered dictionary from job id to job, the lease / complete /
 * statistics operations on it, and the two reclamation sweeps (stale leases
 * back to `New`, completed jobs flushed and evicted).
 *
 * Every operation runs atomically here; the semaphores and the async
 * scheduling around them are not part of this model.
 */
module JobQueue {
  import opened Wrappers

  type JobId = string
  type UserName = string

  /** The three states of a queued job. */
  datatype JobState = New | Pending | Complete

  /**
   * The class of a job object. Every job is an instance of the base class
   * `GenerationJob`; each concrete kind is a direct subclass of it.
   */
  datatype JobClass = GenerationJob | Subclass(name: string)

  const MontesinosJob: JobClass := Subclass("MontesinosJob")

  /** Results reported by a worker: the job they answer and the tangle ids found. */
  datatype Results = Results(jobId: JobId, montList: seq<string>)

  /** The kind-specific part of a job. */
  datatype Payload =
    | NoPayload
    | MontesinosPayload(crossingNum: int, stencil: string, ratLists: seq<seq<string>>)

  datatype Job = Job(
    jobId: JobId,
    cls: JobClass,
    curState: JobState,
    clientId: Option<UserName>,
    timestamp: int,
    results: Option<Results>,
    payload: Payload)

  /** One slot of the dictionary: the key it is stored under and the job. */
  datatype Entry = Entry(key: JobId, job: Job)

  /** `isinstance(job, cls)` for a one-level class hierarchy. */
  predicate IsInstance(job: Job, cls: JobClass) {
    cls == GenerationJob || job.cls == cls
  }

  function Keys(q: seq<Entry>): set<JobId> {
    set i | 0 <= i < |q| :: q[i].key
  }

  ghost predicate KeysDistinct(q: seq<Entry>) {
    forall i, j :: 0 <= i < j < |q| ==> q[i].key != q[j].key
  }

  /** A dictionary whose every key is the id of the job stored under it. */
  ghost predicate WellKeyed(q: seq<Entry>) {
    KeysDistinct(q) && forall i :: 0 <= i < |q| ==> q[i].key == q[i].job.jobId
  }

  // ---------------------------------------------------------------------
  // Lookups
  // ---------------------------------------------------------------------

  /** Position of key `k` at or after `from`, scanning in insertion order. */
  function IndexFrom(q: seq<Entry>, k: JobId, from: nat): (r: Option<nat>)
    requires from <= |q|
    ensures r.Some? ==> from <= r.value < |q| && q[r.value].key == k
    ensures r.Some? ==> forall j :: from <= j < r.value ==> q[j].key != k
    ensures r.None? ==> forall j :: from <= j < |q| ==> q[j].key != k
    decreases |q| - from
  {
    if from == |q| then None
    else if q[from].key == k then Some(from)
    else IndexFrom(q, k, from + 1)
  }

  /** Where key `k` is stored, if it is present. */
  function IndexOf(q: seq<Entry>, k: JobId): (r: Option<nat>)
    ensures r.None? <==> k !in Keys(q)
    ensures r.Some? ==> r.value < |q| && q[r.value].key == k
  {
    IndexFrom(q, k, 0)
  }

  /** A job `get_next_job(cls, _)` may hand out. */
  predicate Leasable(e: Entry, cls: JobClass) {
    IsInstance(e.job, cls) && e.job.curState == New
  }

  function FirstNewFrom(q: seq<Entry>, cls: JobClass, from: nat): (r: Option<nat>)
    requires from <= |q|
    ensures r.Some? ==> from <= r.value < |q| && Leasable(q[r.value], cls)
    ensures r.Some? ==> forall j :: from <= j < r.value ==> !Leasable(q[j], cls)
    ensures r.None? ==> forall j :: from <= j < |q| ==> !Leasable(q[j], cls)
    decreases |q| - from
  {
    if from == |q| then None
    else if Leasable(q[from], cls) then Some(from)
    else FirstNewFrom(q, cls, from + 1)
  }

  /** The first `New` job of class `cls` in insertion order. */
  function FirstNew(q: seq<Entry>, cls: JobClass): (r: Option<nat>)
    ensures r.Some? ==> r.value < |q| && Leasable(q[r.value], cls)
    ensures r.Some? ==> forall j :: 0 <= j < r.value ==> !Leasable(q[j], cls)
    ensures r.None? ==> forall j :: 0 <= j < |q| ==> !Leasable(q[j], cls)
  {
    FirstNewFrom(q, cls, 0)
  }

  // ---------------------------------------------------------------------
  // Counting and statistics
  // ---------------------------------------------------------------------

  function CountWhere(q: seq<Entry>, p: Entry -> bool): nat
  {
    if |q| == 0 then 0 else (if p(q[0]) then 1 else 0) + CountWhere(q[1..], p)
  }

  function OfClass(cls: JobClass): Entry -> bool {
    (e: Entry) => IsInstance(e.job, cls)
  }

  function OfClassIn(cls: JobClass, s: JobState): Entry -> bool {
    (e: Entry) => IsInstance(e.job, cls) && e.job.curState == s
  }

  /** `_get_count`: the number of queued jobs of class `cls`. */
  function CountJobs(q: seq<Entry>, cls: JobClass): nat {
    CountWhere(q, OfClass(cls))
  }

  /** `_get_count_new`, `_get_count_pending`, `_get_count_complete`. */
  function CountInState(q: seq<Entry>, cls: JobClass, s: JobState): nat {
    CountWhere(q, OfClassIn(cls, s))
  }

  datatype Statistics = Statistics(queueLength: nat, numNew: nat, numPending: nat, numComplete: nat)

  /** `get_job_statistics`: totals of the jobs of class `cls`. */
  function JobStatistics(q: seq<Entry>, cls: JobClass): (st: Statistics)
    ensures st.numNew + st.numPending + st.numComplete == st.queueLength
    ensures st.queueLength <= |q|
  {
    StatesPartition(q, cls);
    CountBound(q, OfClass(cls));
    Statistics(
      CountJobs(q, cls),
      CountInState(q, cls, New),
      CountInState(q, cls, Pending),
      CountInState(q, cls, Complete))
  }

  lemma {:induction false} CountBound(q: seq<Entry>, p: Entry -> bool)
    ensures CountWhere(q, p) <= |q|
  {
    if |q| > 0 {
      CountBound(q[1..], p);
    }
  }

  /** Every counted job is in exactly one of the three states. */
  lemma {:induction false} StatesPartition(q: seq<Entry>, cls: JobClass)
    ensures CountInState(q, cls, New) + CountInState(q, cls, Pending)
            + CountInState(q, cls, Complete) == CountJobs(q, cls)
  {
    if |q| > 0 {
      StatesPartition(q[1..], cls);
    }
  }

  lemma {:induction false} CountAppend(a: seq<Entry>, b: seq<Entry>, p: Entry -> bool)
    ensures CountWhere(a + b, p) == CountWhere(a, p) + CountWhere(b, p)
  {
    if |a| == 0 {
      assert a + b == b;
    } else {
      assert (a + b)[1..] == a[1..] + b;
      CountAppend(a[1..], b, p);
    }
  }

  /** Replacing one entry changes a count by what the old and new entries contribute. */
  lemma CountUpdate(q: seq<Entry>, i: nat, e: Entry, p: Entry -> bool)
    requires i < |q|
    ensures CountWhere(q[i := e], p) + (if p(q[i]) then 1 else 0)
            == CountWhere(q, p) + (if p(e) then 1 else 0)
  {
    assert q == q[..i] + [q[i]] + q[i + 1..];
    assert q[i := e] == q[..i] + [e] + q[i + 1..];
    CountAppend(q[..i] + [q[i]], q[i + 1..], p);
    CountAppend(q[..i], [q[i]], p);
    CountAppend(q[..i] + [e], q[i + 1..], p);
    CountAppend(q[..i], [e], p);
  }

  lemma CountSingle(e: Entry, p: Entry -> bool)
    ensures CountWhere([e], p) == if p(e) then 1 else 0
  {
    assert [e][1..] == [];
  }

  lemma {:induction false} CountNone(q: seq<Entry>, p: Entry -> bool)
    requires forall i :: 0 <= i < |q| ==> !p(q[i])
    ensures CountWhere(q, p) == 0
  {
    if |q| > 0 {
      CountNone(q[1..], p);
    }
  }

  lemma {:induction false} CountAll(q: seq<Entry>, p: Entry -> bool)
    requires forall i :: 0 <= i < |q| ==> p(q[i])
    ensures CountWhere(q, p) == |q|
  {
    if |q| > 0 {
      CountAll(q[1..], p);
    }
  }

  /** Jobs of other classes, wherever they sit in the queue, do not show in the statistics. */
  lemma {:induction false} OtherClassesNotCounted(a: seq<Entry>, b: seq<Entry>, cls: JobClass)
    requires forall i :: 0 <= i < |b| ==> !IsInstance(b[i].job, cls)
    ensures JobStatistics(a + b, cls) == JobStatistics(a, cls)
    ensures JobStatistics(b + a, cls) == JobStatistics(a, cls)
  {
    CountIgnoring(a, b, OfClass(cls));
    CountIgnoring(a, b, OfClassIn(cls, New));
    CountIgnoring(a, b, OfClassIn(cls, Pending));
    CountIgnoring(a, b, OfClassIn(cls, Complete));
  }

  lemma CountIgnoring(a: seq<Entry>, b: seq<Entry>, p: Entry -> bool)
    requires forall i :: 0 <= i < |b| ==> !p(b[i])
    ensures CountWhere(a + b, p) == CountWhere(a, p)
    ensures CountWhere(b + a, p) == CountWhere(a, p)
  {
    CountNone(b, p);
    CountAppend(a, b, p);
    CountAppend(b, a, p);
  }

  // ---------------------------------------------------------------------
  // Transitions of a single job
  // ---------------------------------------------------------------------

  /** The job once leased to `user`. */
  function Leased(job: Job, user: UserName): Job {
    job.(curState := Pending, clientId := Some(user))
  }

  /** The job once its results are attached. */
  function Completed(job: Job, results: Results): Job {
    job.(results := Some(results), curState := Complete)
  }

  /** `enqueue_job` as a function of the dictionary. */
  function WithJob(q: seq<Entry>, job: Job): (r: seq<Entry>)
    ensures Keys(r) == Keys(q) + {job.jobId}
  {
    if job.jobId in Keys(q) then q
    else
      KeysAppend(q, Entry(job.jobId, job));
      q + [Entry(job.jobId, job)]
  }

  /** Enqueueing keeps every key distinct and equal to its job's id. */
  lemma WithJobWellKeyed(q: seq<Entry>, job: Job)
    requires WellKeyed(q)
    ensures WellKeyed(WithJob(q, job))
  {
    KeysAppend(q, Entry(job.jobId, job));
  }

  lemma KeysAppend(q: seq<Entry>, e: Entry)
    ensures Keys(q + [e]) == Keys(q) + {e.key}
    ensures WellKeyed(q) && e.key !in Keys(q) && e.key == e.job.jobId ==> WellKeyed(q + [e])
  {
    var r := q + [e];
    forall k | k in Keys(q) ensures k in Keys(r) {
      var i :| 0 <= i < |q| && q[i].key == k;
      assert r[i].key == k;
    }
    assert r[|q|].key == e.key;
    forall i | 0 <= i < |q| ensures q[i].key in Keys(q) {
    }
  }

  /** Two queues with the same keys at the same positions have the same key set. */
  lemma SameKeys(q: seq<Entry>, r: seq<Entry>)
    requires |q| == |r| && forall i :: 0 <= i < |q| ==> q[i].key == r[i].key
    ensures Keys(q) == Keys(r)
  {
    forall k | k in Keys(q) ensures k in Keys(r) {
      var i :| 0 <= i < |q| && q[i].key == k;
      assert r[i].key == k;
    }
    forall k | k in Keys(r) ensures k in Keys(q) {
      var i :| 0 <= i < |r| && r[i].key == k;
      assert q[i].key == k;
    }
  }

  /** The one index `mark_job_complete(results, user)` acts on, if it acts at all. */
  function CompletionIndex(q: seq<Entry>, results: Results, user: UserName): Option<nat>
  {
    match IndexOf(q, results.jobId)
    case None => None
    case Some(i) =>
      if q[i].job.curState == Pending && q[i].job.clientId == Some(user) then Some(i) else None
  }

  // ---------------------------------------------------------------------
  // Reclamation
  // ---------------------------------------------------------------------

  /** `_is_above_time_delta(stamp)`: at least `stale` seconds have passed since `stamp`. */
  predicate IsAboveTimeDelta(now: int, stamp: int, stale: int) {
    now - stamp >= stale
  }

  function Reclaimed(e: Entry, now: int, stale: int): Entry {
    if IsAboveTimeDelta(now, e.job.timestamp, stale) && e.job.curState != Complete
    then Entry(e.key, e.job.(curState := New))
    else e
  }

  /** The queue after `_clean_stale_jobs`. */
  function StaleSwept(q: seq<Entry>, now: int, stale: int): seq<Entry> {
    seq(|q|, i requires 0 <= i < |q| => Reclaimed(q[i], now, stale))
  }

  /** A `Pending` job of class `cls` that is not yet stale. */
  function FreshPending(cls: JobClass, now: int, stale: int): Entry -> bool {
    (e: Entry) => IsInstance(e.job, cls) && e.job.curState == Pending && !IsAboveTimeDelta(now, e.job.timestamp, stale)
  }

  /**
   * What the stale sweep does to each job: a stale job that is not complete
   * goes back to `New`; complete and fresh jobs are untouched; no key, id,
   * owner or timestamp changes.
   */
  lemma StaleSweepPreserves(q: seq<Entry>, now: int, stale: int)
    ensures var r := StaleSwept(q, now, stale);
      && |r| == |q|
      && Keys(r) == Keys(q)
      && (WellKeyed(q) ==> WellKeyed(r))
      && (forall i :: 0 <= i < |q| ==>
           && r[i].key == q[i].key
           && r[i].job.jobId == q[i].job.jobId
           && r[i].job.clientId == q[i].job.clientId
           && r[i].job.timestamp == q[i].job.timestamp)
      && (forall i :: 0 <= i < |q| && q[i].job.curState == Complete ==> r[i] == q[i])
      && (forall i :: 0 <= i < |q| && !IsAboveTimeDelta(now, q[i].job.timestamp, stale) ==> r[i] == q[i])
      && (forall i :: 0 <= i < |q| && q[i].job.curState != Complete && IsAboveTimeDelta(now, q[i].job.timestamp, stale) ==> r[i].job.curState == New)
  {
    SameKeys(q, StaleSwept(q, now, stale));
  }

  /**
   * The stale sweep keeps the number of jobs and of complete jobs, moves the
   * stale `Pending` jobs to `New`, and leaves only the fresh ones `Pending`.
   */
  lemma StaleSweepStatistics(q: seq<Entry>, cls: JobClass, now: int, stale: int)
    ensures var before, after := JobStatistics(q, cls), JobStatistics(StaleSwept(q, now, stale), cls);
      && after.queueLength == before.queueLength
      && after.numComplete == before.numComplete
      && after.numNew + after.numPending == before.numNew + before.numPending
      && after.numPending == CountWhere(q, FreshPending(cls, now, stale))
  {
    StaleSweptCounts(q, cls, now, stale);
  }

  /** `StaleSweepStatistics` on the counts themselves, by induction on the queue. */
  lemma {:induction false} StaleSweptCounts(q: seq<Entry>, cls: JobClass, now: int, stale: int)
    ensures var r := StaleSwept(q, now, stale);
      && CountJobs(r, cls) == CountJobs(q, cls)
      && CountInState(r, cls, Complete) == CountInState(q, cls, Complete)
      && CountInState(r, cls, New) + CountInState(r, cls, Pending) == CountInState(q, cls, New) + CountInState(q, cls, Pending)
      && CountInState(r, cls, Pending) == CountWhere(q, FreshPending(cls, now, stale))
  {
    var r := StaleSwept(q, now, stale);
    if |q| > 0 {
      assert r[1..] == StaleSwept(q[1..], now, stale);
      StaleSweptCounts(q[1..], cls, now, stale);
    }
  }

  /** With every job stale, no job is left `Pending` after the sweep. */
  lemma StaleSweepAllStale(q: seq<Entry>, cls: JobClass, now: int, stale: int)
    requires forall i :: 0 <= i < |q| ==> IsAboveTimeDelta(now, q[i].job.timestamp, stale)
    ensures var before, after := JobStatistics(q, cls), JobStatistics(StaleSwept(q, now, stale), cls);
      && after.queueLength == before.queueLength
      && after.numPending == 0
      && after.numNew == before.numNew + before.numPending
      && after.numComplete == before.numComplete
  {
    StaleSweepStatistics(q, cls, now, stale);
    CountNone(q, FreshPending(cls, now, stale));
  }

  /** The jobs of the `complete` entries, in queue order (the sweep's snapshot). */
  function CompleteJobs(q: seq<Entry>): seq<Job>
  {
    if |q| == 0 then []
    else (if q[0].job.curState == Complete then [q[0].job] else []) + CompleteJobs(q[1..])
  }

  /** Every job of the snapshot is a complete job of the queue. */
  lemma {:induction false} CompleteJobsSound(q: seq<Entry>, j: nat)
    requires j < |CompleteJobs(q)|
    ensures exists m :: 0 <= m < |q| && q[m].job == CompleteJobs(q)[j] && q[m].job.curState == Complete
  {
    var head := if q[0].job.curState == Complete then [q[0].job] else [];
    assert CompleteJobs(q) == head + CompleteJobs(q[1..]);
    if j < |head| {
      assert CompleteJobs(q)[j] == q[0].job;
    } else {
      CompleteJobsSound(q[1..], j - |head|);
      var m :| 0 <= m < |q[1..]| && q[1..][m].job == CompleteJobs(q[1..])[j - |head|]
               && q[1..][m].job.curState == Complete;
      assert q[m + 1] == q[1..][m];
    }
  }

  lemma {:induction false} KeepNothing(q: seq<Entry>)
    ensures Keep(q, {}) == q
  {
    if |q| > 0 {
      KeepNothing(q[1..]);
      assert q == [q[0]] + q[1..];
    }
  }

  /** The ids the complete sweep deletes: those of the given jobs whose `store()` did not raise. */
  function EvictedIds(items: seq<Job>, raising: set<JobId>): set<JobId> {
    set i | 0 <= i < |items| && items[i].jobId !in raising :: items[i].jobId
  }

  /** Evicting one more item of the snapshot adds its id, unless it is raising. */
  lemma EvictedStep(items: seq<Job>, k: nat, raising: set<JobId>)
    requires k < |items|
    ensures EvictedIds(items[..k + 1], raising) ==
      EvictedIds(items[..k], raising) + (if items[k].jobId in raising then {} else {items[k].jobId})
  {
    var a, b := items[..k], items[..k + 1];
    assert forall i :: 0 <= i < k ==> b[i] == a[i];
    assert b[k] == items[k];
  }

  /** The entries whose key is not in `d`, in order (`del` of each key of `d`). */
  function Keep(q: seq<Entry>, d: set<JobId>): (r: seq<Entry>)
    ensures |r| <= |q|
  {
    if |q| == 0 then []
    else (if q[0].key in d then [] else [q[0]]) + Keep(q[1..], d)
  }

  /** A job the complete sweep removes. */
  predicate Evictable(e: Entry, raising: set<JobId>) {
    e.job.curState == Complete && e.job.jobId !in raising
  }

  /** The queue after `_clean_complete_jobs`, stated entry by entry. */
  function Flushed(q: seq<Entry>, raising: set<JobId>): seq<Entry> {
    if |q| == 0 then []
    else (if Evictable(q[0], raising) then [] else [q[0]]) + Flushed(q[1..], raising)
  }

  lemma {:induction false} KeepKeep(q: seq<Entry>, a: set<JobId>, b: set<JobId>)
    ensures Keep(Keep(q, a), b) == Keep(q, a + b)
  {
    if |q| > 0 {
      KeepKeep(q[1..], a, b);
      var rest := Keep(q[1..], a);
      if q[0].key !in a {
        assert Keep(q, a) == [q[0]] + rest;
        assert ([q[0]] + rest)[1..] == rest;
      } else {
        assert Keep(q, a) == rest;
      }
    }
  }

  lemma {:induction false} KeepWellKeyed(q: seq<Entry>, d: set<JobId>)
    requires WellKeyed(q)
    ensures WellKeyed(Keep(q, d))
    ensures Keys(Keep(q, d)) <= Keys(q)
  {
    KeepKeys(q, d);
    if |q| > 0 {
      var rest := Keep(q[1..], d);
      TailWellKeyed(q);
      KeepWellKeyed(q[1..], d);
      if q[0].key !in d {
        assert Keep(q, d) == [q[0]] + rest;
        ConsWellKeyed(q[0], rest);
      }
    }
  }

  lemma {:induction false} KeepKeys(q: seq<Entry>, d: set<JobId>)
    ensures Keys(Keep(q, d)) <= Keys(q)
  {
    if |q| > 0 {
      var rest := Keep(q[1..], d);
      KeepKeys(q[1..], d);
      forall k | k in Keys(Keep(q, d)) ensures k in Keys(q) {
        var r := Keep(q, d);
        var i :| 0 <= i < |r| && r[i].key == k;
        if q[0].key !in d && i == 0 {
          assert r[0] == q[0];
        } else {
          var m := if q[0].key in d then i else i - 1;
          assert r[i] == rest[m];
          assert k in Keys(rest);
          var t :| 0 <= t < |q[1..]| && q[1..][t].key == k;
          assert q[t + 1].key == k;
        }
      }
    }
  }

  /** The entries after the first of a well-keyed queue are well keyed and miss the first key. */
  lemma TailWellKeyed(q: seq<Entry>)
    requires WellKeyed(q) && |q| > 0
    ensures WellKeyed(q[1..]) && q[0].key !in Keys(q[1..])
  {
    forall i | 0 <= i < |q[1..]| ensures q[1..][i].key != q[0].key {
      assert q[1..][i] == q[i + 1];
    }
  }

  /** An entry put in front of a well-keyed queue that lacks its key gives a well-keyed queue. */
  lemma ConsWellKeyed(e: Entry, rest: seq<Entry>)
    requires WellKeyed(rest) && e.key !in Keys(rest) && e.key == e.job.jobId
    ensures WellKeyed([e] + rest)
  {
    var r := [e] + rest;
    forall i, j | 0 <= i < j < |r| ensures r[i].key != r[j].key {
      assert r[j] == rest[j - 1];
      if i == 0 {
        assert rest[j - 1].key in Keys(rest);
      } else {
        assert r[i] == rest[i - 1];
      }
    }
  }

  lemma {:induction false} KeepIsFlushed(q: seq<Entry>, d: set<JobId>, raising: set<JobId>)
    requires forall i :: 0 <= i < |q| ==> (q[i].key in d <==> Evictable(q[i], raising))
    ensures Keep(q, d) == Flushed(q, raising)
  {
    if |q| > 0 {
      KeepIsFlushed(q[1..], d, raising);
    }
  }

  /** Deleting, one by one, the ids of the snapshot of complete jobs yields `Flushed`. */
  lemma FlushByKeys(q: seq<Entry>, raising: set<JobId>)
    requires WellKeyed(q)
    ensures Keep(q, EvictedIds(CompleteJobs(q), raising)) == Flushed(q, raising)
  {
    var items := CompleteJobs(q);
    var d := EvictedIds(items, raising);
    forall i | 0 <= i < |q| ensures q[i].key in d <==> Evictable(q[i], raising) {
      if Evictable(q[i], raising) {
        CompleteJobsCover(q, i);
        var j :| 0 <= j < |items| && items[j] == q[i].job;
        assert items[j].jobId == q[i].key;
      }
      if q[i].key in d {
        var j :| 0 <= j < |items| && items[j].jobId !in raising && items[j].jobId == q[i].key;
        CompleteJobsSound(q, j);
        var m :| 0 <= m < |q| && q[m].job == items[j] && q[m].job.curState == Complete;
        assert q[m].key == q[i].key;
        assert m == i;
      }
    }
    KeepIsFlushed(q, d, raising);
  }

  lemma {:induction false} CompleteJobsCover(q: seq<Entry>, i: nat)
    requires i < |q| && q[i].job.curState == Complete
    ensures exists j :: 0 <= j < |CompleteJobs(q)| && CompleteJobs(q)[j] == q[i].job
  {
    var head := if q[0].job.curState == Complete then [q[0].job] else [];
    assert CompleteJobs(q) == head + CompleteJobs(q[1..]);
    if i == 0 {
      assert CompleteJobs(q)[0] == q[0].job;
    } else {
      CompleteJobsCover(q[1..], i - 1);
      var j :| 0 <= j < |CompleteJobs(q[1..])| && CompleteJobs(q[1..])[j] == q[i].job;
      assert CompleteJobs(q)[|head| + j] == q[i].job;
    }
  }

  /** A complete job of class `cls` whose store raised: the only complete jobs a flush keeps. */
  function CompleteKept(cls: JobClass, raising: set<JobId>): Entry -> bool {
    (e: Entry) => IsInstance(e.job, cls) && e.job.curState == Complete && e.job.jobId in raising
  }

  /**
   * The complete sweep removes only complete jobs: `New` and `Pending`
   * counts are unchanged, and the complete jobs left are exactly those whose
   * store raised.
   */
  lemma {:induction false} FlushStatistics(q: seq<Entry>, cls: JobClass, raising: set<JobId>)
    ensures var before, after := JobStatistics(q, cls), JobStatistics(Flushed(q, raising), cls);
      && after.numNew == before.numNew
      && after.numPending == before.numPending
      && after.numComplete == CountWhere(q, CompleteKept(cls, raising))
      && after.queueLength == before.numNew + before.numPending + after.numComplete
  {
    FlushKeepsCount(q, raising, OfClassIn(cls, New));
    FlushKeepsCount(q, raising, OfClassIn(cls, Pending));
    FlushCompleteCount(q, raising, cls);
  }

  /** A count of jobs the flush never evicts is the same before and after it. */
  lemma {:induction false} FlushKeepsCount(q: seq<Entry>, raising: set<JobId>, p: Entry -> bool)
    requires forall i :: 0 <= i < |q| && p(q[i]) ==> !Evictable(q[i], raising)
    ensures CountWhere(Flushed(q, raising), p) == CountWhere(q, p)
  {
    if |q| > 0 {
      FlushKeepsCount(q[1..], raising, p);
      var head: seq<Entry> := if Evictable(q[0], raising) then [] else [q[0]];
      CountAppend(head, Flushed(q[1..], raising), p);
      CountSingle(q[0], p);
    }
  }

  lemma {:induction false} FlushCompleteCount(q: seq<Entry>, raising: set<JobId>, cls: JobClass)
    ensures CountWhere(Flushed(q, raising), OfClassIn(cls, Complete)) == CountWhere(q, CompleteKept(cls, raising))
  {
    if |q| > 0 {
      FlushCompleteCount(q[1..], raising, cls);
      var head: seq<Entry> := if Evictable(q[0], raising) then [] else [q[0]];
      CountAppend(head, Flushed(q[1..], raising), OfClassIn(cls, Complete));
      CountSingle(q[0], OfClassIn(cls, Complete));
    }
  }

  /** When every store succeeds, no complete job is left and only `New` and `Pending` jobs remain. */
  lemma FlushAllStored(q: seq<Entry>, cls: JobClass)
    ensures var before, after := JobStatistics(q, cls), JobStatistics(Flushed(q, {}), cls);
      && after.numComplete == 0
      && after.queueLength == before.queueLength - before.numComplete
  {
    FlushStatistics(q, cls, {});
    CountNone(q, CompleteKept(cls, {}));
  }

  // ---------------------------------------------------------------------
  // Lease exclusivity
  // ---------------------------------------------------------------------

  /**
   * Leasing the first `New` job turns one `New` job into a `Pending` one, and
   * a second lease can never hand out the same job again.
   */
  lemma LeaseExclusive(q: seq<Entry>, cls: JobClass, user: UserName)
    requires FirstNew(q, cls).Some?
    ensures var i := FirstNew(q, cls).value;
      var q' := q[i := Entry(q[i].key, Leased(q[i].job, user))];
      var before, after := JobStatistics(q, cls), JobStatistics(q', cls);
      && after.queueLength == before.queueLength
      && after.numNew + 1 == before.numNew
      && after.numPending == before.numPending + 1
      && after.numComplete == before.numComplete
      && (FirstNew(q', cls).None? || FirstNew(q', cls).value > i)
  {
    var i := FirstNew(q, cls).value;
    var e := Entry(q[i].key, Leased(q[i].job, user));
    CountUpdate(q, i, e, OfClass(cls));
    CountUpdate(q, i, e, OfClassIn(cls, New));
    CountUpdate(q, i, e, OfClassIn(cls, Pending));
    CountUpdate(q, i, e, OfClassIn(cls, Complete));
  }

  /** With exactly one `New` job of a class, only the first of two lease calls gets a job. */
  lemma OnlyOneLeaseOfOneJob(q: seq<Entry>, cls: JobClass, user: UserName)
    requires CountInState(q, cls, New) == 1
    ensures FirstNew(q, cls).Some?
    ensures var i := FirstNew(q, cls).value;
      FirstNew(q[i := Entry(q[i].key, Leased(q[i].job, user))], cls).None?
  {
    if FirstNew(q, cls).None? {
      CountNone(q, OfClassIn(cls, New));
      assert false;
    }
    var i := FirstNew(q, cls).value;
    var q' := q[i := Entry(q[i].key, Leased(q[i].job, user))];
    LeaseExclusive(q, cls, user);
    if FirstNew(q', cls).Some? {
      var j := FirstNew(q', cls).value;
      CountPositive(q', OfClassIn(cls, New), j);
      assert false;
    }
  }

  lemma {:induction false} CountPositive(q: seq<Entry>, p: Entry -> bool, j: nat)
    requires j < |q| && p(q[j])
    ensures CountWhere(q, p) > 0
  {
    if j > 0 {
      CountPositive(q[1..], p, j - 1);
    }
  }

  // ---------------------------------------------------------------------
  // The job-state invariant
  // ---------------------------------------------------------------------

  /** A job is `Complete` exactly when it has results, and a `Pending` job has an owner. */
  predicate JobConsistent(job: Job) {
    (job.curState == Complete <==> job.results.Some?) && (job.curState == Pending ==> job.clientId.Some?)
  }

  /** Every queued job keeps the job-state invariant. */
  predicate StatesConsistent(q: seq<Entry>) {
    forall i :: 0 <= i < |q| ==> JobConsistent(q[i].job)
  }

  /** Enqueueing a job that keeps the invariant keeps it for the queue. */
  lemma WithJobConsistent(q: seq<Entry>, job: Job)
    requires StatesConsistent(q) && JobConsistent(job)
    ensures StatesConsistent(WithJob(q, job))
  {
    if job.jobId !in Keys(q) {
      var r := WithJob(q, job);
      assert forall i :: 0 <= i < |q| ==> r[i] == q[i];
      assert r[|q|].job == job;
    }
  }

  /** A lease turns a consistent `New` job into a `Pending` job with an owner and no results. */
  lemma LeaseConsistent(q: seq<Entry>, cls: JobClass, user: UserName)
    requires StatesConsistent(q) && FirstNew(q, cls).Some?
    ensures var i := FirstNew(q, cls).value;
      StatesConsistent(q[i := Entry(q[i].key, Leased(q[i].job, user))])
  {
    var i := FirstNew(q, cls).value;
    var r := q[i := Entry(q[i].key, Leased(q[i].job, user))];
    assert JobConsistent(q[i].job);
    forall j | 0 <= j < |r| ensures JobConsistent(r[j].job) {
      if j != i {
        assert r[j] == q[j];
      }
    }
  }

  /** Completing the job `mark_job_complete` acts on attaches results as it becomes `Complete`. */
  lemma CompleteConsistent(q: seq<Entry>, results: Results, user: UserName)
    requires StatesConsistent(q) && CompletionIndex(q, results, user).Some?
    ensures var i := CompletionIndex(q, results, user).value;
      StatesConsistent(q[i := Entry(q[i].key, Completed(q[i].job, results))])
  {
    var i := CompletionIndex(q, results, user).value;
    var r := q[i := Entry(q[i].key, Completed(q[i].job, results))];
    forall j | 0 <= j < |r| ensures JobConsistent(r[j].job) {
      if j != i {
        assert r[j] == q[j];
      }
    }
  }

  /**
   * The stale sweep keeps the invariant: only jobs that are not complete,
   * hence have no results, go back to `New`, and owners are kept.
   */
  lemma StaleSweptConsistent(q: seq<Entry>, now: int, stale: int)
    requires StatesConsistent(q)
    ensures StatesConsistent(StaleSwept(q, now, stale))
  {
    var r := StaleSwept(q, now, stale);
    forall j | 0 <= j < |r| ensures JobConsistent(r[j].job) {
      assert JobConsistent(q[j].job);
    }
  }

  /** The complete sweep keeps the invariant: it only removes jobs. */
  lemma {:induction false} FlushedConsistent(q: seq<Entry>, raising: set<JobId>)
    requires StatesConsistent(q)
    ensures StatesConsistent(Flushed(q, raising))
  {
    if |q| > 0 {
      assert StatesConsistent(q[1..]) by {
        forall j | 0 <= j < |q[1..]| ensures JobConsistent(q[1..][j].job) {
          assert q[1..][j] == q[j + 1];
        }
      }
      FlushedConsistent(q[1..], raising);
      var head: seq<Entry> := if Evictable(q[0], raising) then [] else [q[0]];
      var rest := Flushed(q[1..], raising);
      assert Flushed(q, raising) == head + rest;
      forall j | 0 <= j < |head + rest| ensures JobConsistent((head + rest)[j].job) {
        if j < |head| {
          assert (head + rest)[j] == q[0];
        } else {
          assert (head + rest)[j] == rest[j - |head|];
        }
      }
    }
  }

  // ---------------------------------------------------------------------
  // The queue object
  // ---------------------------------------------------------------------

  class Queue {
    /** The dictionary, in insertion order. */
    var entries: seq<Entry>

    ghost predicate Valid()
      reads this
    {
      WellKeyed(entries)
    }

    constructor ()
      ensures Valid() && entries == []
    {
      entries := [];
    }

    /** `enqueue_job`: add the job under its id unless that id is taken. */
    method Enqueue(job: Job) returns (enqueued: bool)
      requires Valid()
      modifies this
      ensures Valid()
      ensures enqueued <==> job.jobId !in Keys(old(entries))
      ensures enqueued ==> entries == old(entries) + [Entry(job.jobId, job)]
      ensures !enqueued ==> entries == old(entries)
      ensures entries == WithJob(old(entries), job)
      ensures StatesConsistent(old(entries)) && JobConsistent(job) ==> StatesConsistent(entries)
    {
      WithJobWellKeyed(entries, job);
      if StatesConsistent(entries) && JobConsistent(job) {
        WithJobConsistent(entries, job);
      }
      enqueued := false;
      if IndexOf(entries, job.jobId).None? {
        entries := entries + [Entry(job.jobId, job)];
        enqueued := true;
      }
    }

    /**
     * `get_next_job`: lease the first `New` job of class `cls` to `user`;
     * nothing changes when there is none.
     */
    method GetNextJob(cls: JobClass, user: UserName) returns (job: Option<Job>)
      requires Valid()
      modifies this
      ensures Valid()
      ensures FirstNew(old(entries), cls).None? ==> job.None? && entries == old(entries)
      ensures FirstNew(old(entries), cls).Some? ==>
        var i := FirstNew(old(entries), cls).value;
        && job == Some(Leased(old(entries)[i].job, user))
        && entries == old(entries)[i := Entry(old(entries)[i].key, job.value)]
      ensures StatesConsistent(old(entries)) ==> StatesConsistent(entries)
    {
      if StatesConsistent(entries) && FirstNew(entries, cls).Some? {
        LeaseConsistent(entries, cls, user);
      }
      job := None;
      match FirstNew(entries, cls)
      case None =>
      case Some(i) =>
        var leased := Leased(entries[i].job, user);
        entries := entries[i := Entry(entries[i].key, leased)];
        job := Some(leased);
    }

    /**
     * `mark_job_complete`: only the owner of a `Pending` job can complete it;
     * otherwise nothing changes.
     */
    method MarkJobComplete(results: Results, user: UserName) returns (marked: bool)
      requires Valid()
      modifies this
      ensures Valid()
      ensures marked <==> exists i :: 0 <= i < |old(entries)| && old(entries)[i].key == results.jobId
                                       && old(entries)[i].job.curState == Pending
                                       && old(entries)[i].job.clientId == Some(user)
      ensures marked ==>
        var i := IndexOf(old(entries), results.jobId).value;
        entries == old(entries)[i := Entry(results.jobId, Completed(old(entries)[i].job, results))]
      ensures !marked ==> entries == old(entries)
      ensures StatesConsistent(old(entries)) ==> StatesConsistent(entries)
    {
      if StatesConsistent(entries) && CompletionIndex(entries, results, user).Some? {
        CompleteConsistent(entries, results, user);
      }
      marked := false;
      match CompletionIndex(entries, results, user)
      case None =>
      case Some(i) =>
        entries := entries[i := Entry(entries[i].key, Completed(entries[i].job, results))];
        marked := true;
    }

    /** `_clean_stale_jobs`: every stale job that is not complete goes back to `New`. */
    method CleanStaleJobs(now: int, stale: int)
      requires Valid()
      modifies this
      ensures Valid()
      ensures entries == StaleSwept(old(entries), now, stale)
      ensures StatesConsistent(old(entries)) ==> StatesConsistent(entries)
    {
      StaleSweepPreserves(entries, now, stale);
      if StatesConsistent(entries) {
        StaleSweptConsistent(entries, now, stale);
      }
      var i := 0;
      while i < |entries|
        invariant 0 <= i <= |entries| == |old(entries)|
        invariant forall j :: 0 <= j < i ==> entries[j] == Reclaimed(old(entries)[j], now, stale)
        invariant forall j :: i <= j < |entries| ==> entries[j] == old(entries)[j]
      {
        var e := entries[i];
        if IsAboveTimeDelta(now, e.job.timestamp, stale) && e.job.curState != Complete {
          entries := entries[i := Entry(e.key, e.job.(curState := New))];
        }
        i := i + 1;
      }
    }

    /**
     * `_clean_complete_jobs`: store each complete job and delete it unless its
     * `store()` raised (`raising` holds the ids of the jobs whose store raised).
     */
    method CleanCompleteJobs(raising: set<JobId>)
      requires Valid()
      modifies this
      ensures Valid()
      ensures entries == Flushed(old(entries), raising)
      ensures StatesConsistent(old(entries)) ==> StatesConsistent(entries)
    {
      if StatesConsistent(entries) {
        FlushedConsistent(entries, raising);
      }
      var items := CompleteJobs(entries);
      ghost var removed: set<JobId> := {};
      KeepNothing(entries);
      var k := 0;
      while k < |items|
        invariant 0 <= k <= |items|
        invariant removed == EvictedIds(items[..k], raising)
        invariant entries == Keep(old(entries), removed)
      {
        var item := items[k];
        EvictedStep(items, k, raising);
        if item.jobId !in raising {
          KeepKeep(old(entries), removed, {item.jobId});
          entries := Keep(entries, {item.jobId});
          removed := removed + {item.jobId};
        }
        k := k + 1;
      }
      assert items[..k] == items;
      KeepWellKeyed(old(entries), removed);
      FlushByKeys(old(entries), raising);
    }
  }
}
