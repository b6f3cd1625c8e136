# Tanglenomicon job queue and Montesinos job generation

This is a Dafny model of the part of the Tanglenomicon data API that hands
tangle-enumeration work to remote workers.

- **The in-memory job queue** (`JobQueue`). It is an insertion-ordered
  dictionary from job id to job. The operations are:
  - enqueue a job;
  - lease the first `New` job of a class to a user;
  - let the lease owner mark the job complete;
  - report per-class statistics;
  - run two sweeps. The stale sweep sends stale leases back to `New`. The
    complete sweep stores each complete job and evicts it.
- **Montesinos job generation** (`MontesinosOrm`, `MontesinosHead`,
  `MontesinosJob`).
  - A *stencil* is a template of crossing numbers. Its *head* is a
    mixed-radix counter of page numbers.
  - Building a job fills each stencil slot with one page of rational-tangle
    ids of that crossing number (`_build_job`).
  - `get_jobs` walks the open stencils. It builds jobs, records each one on
    its stencil and moves the head (`_move_head`). When a stencil runs out
    of headroom it moves on to the next open stencil.
  - `store` upserts a completed job's results. It then releases the job
    from its stencil (`_update_stencil`). A stencil that is out of headroom
    and has no open jobs left becomes complete.
  - At startup the queue is topped up to a minimum number of new jobs.

How the model represents the system:

- The queue is the class `JobQueue.Queue`. The stores are the class
  `MontesinosJob.Db`. A stencil read from the store is the class
  `MontesinosOrm.Stencil`, which the code changes in place.
- Each method is proved against a function of the old state:
  - `StaleSwept` and `Flushed` for the sweeps;
  - `NextHead` for `_move_head`;
  - `BuiltJob` for `_build_job`;
  - `GetJobsSpec` for `get_jobs`.

  The lemmas then state what those functions promise.
- The following become parameters:
  - the clock, as `now`;
  - the stale threshold;
  - `uuid4`, as the sequence `uuids` of ids that a `get_jobs` call hands out;
  - the page exponent of the configuration;
  - whether a document-store write is refused.

## Model

| member | source | states |
|---|---|---|
| JobQueue.IndexOf | tanglenomicon_data_api/internal/job_queue.py:263 | `job_id in _job_queue`: absent iff the key is not among the keys; otherwise the position holding that key |
| JobQueue.FirstNew | tanglenomicon_data_api/internal/job_queue.py:230-236 | the first entry in insertion order that is an instance of the class and `New`, with no such entry before it; none iff there is no such entry |
| JobQueue.JobStatistics | tanglenomicon_data_api/internal/job_queue.py:270-288 | the `new`, `pending` and `complete` counts add up to `queue_length`, which is at most the queue's length |
| JobQueue.StatesPartition | tanglenomicon_data_api/internal/job_queue.py:37-121 | the three per-state counts of a class add up to the class count |
| JobQueue.CountBound | tanglenomicon_data_api/internal/job_queue.py:50-52 | a count never exceeds the number of queued jobs |
| JobQueue.OtherClassesNotCounted | tanglenomicon_data_api/internal/job_queue.py:37-121 | jobs that are not instances of the class do not change its statistics, whether they are queued before or after |
| JobQueue.WithJob | tanglenomicon_data_api/internal/job_queue.py:247-267 | enqueueing adds exactly the job's id to the key set |
| JobQueue.WithJobWellKeyed | tanglenomicon_data_api/internal/job_queue.py:263-264 | after an enqueue, keys stay distinct and each key is its job's id |
| JobQueue.Queue.Enqueue | tanglenomicon_data_api/internal/job_queue.py:247-267 | returns true iff the id was absent; then the job is appended under its id, and otherwise nothing changes. A consistent queue stays consistent when the job is (see `JobQueue.WithJobConsistent`) |
| JobQueue.Queue.GetNextJob | tanglenomicon_data_api/internal/job_queue.py:213-244 | leases the first `New` job of the class: it becomes `Pending` and owned by the user, and no other entry changes. With no `New` job of the class the result is none and nothing changes. A consistent queue stays consistent |
| JobQueue.LeaseExclusive | tanglenomicon_data_api/internal/job_queue.py:230-242 | a lease moves exactly one job of the class from `New` to `Pending`. The next lease can only pick a later job, so no job is leased twice |
| JobQueue.OnlyOneLeaseOfOneJob | tanglenomicon_data_api/internal/job_queue.py:230-242 | with exactly one `New` job of a class, the first lease gets it and a second lease gets nothing |
| JobQueue.Queue.MarkJobComplete | tanglenomicon_data_api/internal/job_queue.py:183-210 | marks iff the id is queued, the job is `Pending` and the user owns it. The results are then attached and the state becomes `Complete`. Otherwise nothing changes. A consistent queue stays consistent |
| JobQueue.Queue.CleanStaleJobs | tanglenomicon_data_api/internal/job_queue.py:144-158 | the queue becomes `StaleSwept` of the old queue (see the lemmas below for what that does to each job). It stays well keyed, and a consistent queue stays consistent |
| JobQueue.StaleSweepPreserves | tanglenomicon_data_api/internal/job_queue.py:124-158 | a job that is stale and not complete goes back to `New`. Complete jobs and fresh jobs are untouched. No key, id, owner or timestamp changes. Stale means at least `stale` seconds have passed |
| JobQueue.StaleSweepStatistics | tanglenomicon_data_api/internal/job_queue.py:144-158 | the sweep keeps the job count and the complete count. It moves jobs only between `New` and `Pending`, and afterwards `Pending` counts exactly the fresh pending jobs |
| JobQueue.StaleSweptCounts | tanglenomicon_data_api/internal/job_queue.py:144-158 | the same facts on the raw per-class counts, by induction on the queue |
| JobQueue.StaleSweepAllStale | tanglenomicon_data_api/internal/job_queue.py:144-158 | when every job is stale, none stays `Pending`, and every pending job is counted as new |
| JobQueue.Queue.CleanCompleteJobs | tanglenomicon_data_api/internal/job_queue.py:161-180 | deleting, one by one, the ids of the complete-job snapshot whose `store()` did not raise leaves exactly `Flushed` of the old queue. It keeps the queue well keyed, and a consistent queue stays consistent |
| JobQueue.CompleteJobsSound | tanglenomicon_data_api/internal/job_queue.py:166-170 | every job in the sweep's snapshot is a complete job of the queue |
| JobQueue.CompleteJobsCover | tanglenomicon_data_api/internal/job_queue.py:166-170 | every complete job of the queue is in the snapshot |
| JobQueue.FlushByKeys | tanglenomicon_data_api/internal/job_queue.py:171-175 | deleting the snapshot's ids by key removes exactly the complete jobs whose store did not raise, and keeps the others in order |
| JobQueue.KeepKeep | tanglenomicon_data_api/internal/job_queue.py:175 | deleting one set of keys and then another is the same as deleting their union |
| JobQueue.KeepWellKeyed | tanglenomicon_data_api/internal/job_queue.py:175 | deletions keep the keys distinct and matching their jobs, and add no key |
| JobQueue.FlushStatistics | tanglenomicon_data_api/internal/job_queue.py:161-180 | the complete sweep keeps the `New` and `Pending` counts. The complete jobs left are exactly those whose store raised |
| JobQueue.FlushAllStored | tanglenomicon_data_api/internal/job_queue.py:161-180 | when no store raises, no complete job is left, and the class shrinks by exactly its complete count |
| JobQueue.WithJobConsistent | tanglenomicon_data_api/internal/job_queue.py:263-264 | enqueueing a job that is consistent (it is `Complete` exactly when it has results, and is owned when `Pending`) keeps every queued job consistent |
| JobQueue.LeaseConsistent | tanglenomicon_data_api/internal/job_queue.py:239-242 | the leased job was `New`, so it had no results; as `Pending` it now has an owner, and the whole queue stays consistent |
| JobQueue.CompleteConsistent | tanglenomicon_data_api/internal/job_queue.py:206-207 | the job that becomes `Complete` gets its results at the same time, and the whole queue stays consistent |
| JobQueue.StaleSweptConsistent | tanglenomicon_data_api/internal/job_queue.py:144-158 | the stale sweep only sends jobs without results back to `New` and keeps owners, so the queue stays consistent |
| JobQueue.FlushedConsistent | tanglenomicon_data_api/internal/job_queue.py:161-180 | the complete sweep only removes jobs, so the queue stays consistent |
| MontesinosOrm.StateCodeRoundTrip | tanglenomicon_data_api/montesinos/orm.py:29-33 | the state codes are exactly 0..3, one per state, and decoding inverts encoding |
| MontesinosOrm.FiltersPartition | tanglenomicon_data_api/montesinos/job.py:19-30 | the open filter holds exactly for `New` and `Started`. Open and started together hold exactly for `Started`, and between them the two filters miss only `Complete` |
| MontesinosOrm.IdsDistinctPairwise | tanglenomicon_data_api/montesinos/orm.py:42-50 | the recursive distinct-id invariant of the stencil collection is pairwise distinctness of `_id` |
| MontesinosOrm.FindOpen | tanglenomicon_data_api/montesinos/job.py:261 | `find_one(OPEN_STEN_FILTER)`: the first open stencil in store order; none iff no stencil is open |
| MontesinosOrm.FindByOpenJob | tanglenomicon_data_api/montesinos/job.py:176 | `find_one({"open_jobs.job_id": id})`: the first stencil with that job open; none iff no stencil has it open |
| MontesinosOrm.Replace | tanglenomicon_data_api/montesinos/job.py:276 | `replace_one` by `_id`: the document with the record's id becomes the record, all others stay, ids and collection validity are kept |
| MontesinosHead.NextHeadCases | tanglenomicon_data_api/montesinos/job.py:47-71 | a move finds room iff some slot is below its capacity `max(0, entry - 2 - page_exp)`. Then, at the lowest such slot k, the lower slots reset to 0, slot k goes up by one and the higher slots keep their values. Otherwise the head becomes the stencil array and the state is no headroom |
| MontesinosHead.MoveHead | tanglenomicon_data_api/montesinos/job.py:33-71 | the in-place carry loop leaves the head and head state that `NextHead` gives, and changes no other field of the stencil |
| MontesinosHead.RankBounds | tanglenomicon_data_api/montesinos/job.py:52-64 | a head within its capacities has a value below the number of head positions |
| MontesinosHead.StepRank | tanglenomicon_data_api/montesinos/job.py:47-66 | a move that finds room keeps the head within its capacities and adds exactly one to its value |
| MontesinosHead.StepNoneIffMax | tanglenomicon_data_api/montesinos/job.py:67-70 | a move finds no room iff the head is at its largest value |
| MontesinosHead.IterateRank | tanglenomicon_data_api/montesinos/job.py:47-66 | n moves from a head in range reach the head whose value is n higher, as long as that value exists |
| MontesinosHead.Odometer | tanglenomicon_data_api/montesinos/job.py:33-71 | from the all-zero head, the first `Radix - 1` moves find room and visit every head position once, in increasing value. The next move finds no room and sets the head to the stencil array |
| MontesinosJob.StencilStringWords | tanglenomicon_data_api/montesinos/job.py:104 | the stencil string splits on single spaces back into the decimal strings of the stencil entries |
| MontesinosJob.MatchingMeaning | tanglenomicon_data_api/montesinos/job.py:108 | an id is among the candidates iff it belongs to a rational tangle with that crossing number that lies in the unit interval |
| MontesinosJob.PageOf | tanglenomicon_data_api/montesinos/job.py:114-133 | a page holds at most `2 ^ page_exp` ids, all of them candidates |
| MontesinosJob.PagesCover | tanglenomicon_data_api/montesinos/job.py:114-133 | the first m pages, taken in order, are exactly the first `m * 2 ^ page_exp` candidates: pages neither overlap nor leave gaps |
| MontesinosJob.RatListsMeaning | tanglenomicon_data_api/montesinos/job.py:105-151 | filling the slots succeeds iff every zipped (crossing number, page) pair has a non-negative page and at least one candidate. Slot i then holds page `pages[i]` of the candidates. Otherwise the error belongs to the first failing pair |
| MontesinosJob.RatListsErrKept | tanglenomicon_data_api/montesinos/job.py:139-142 | once a pair fails, building stops with that pair's error |
| MontesinosJob.BuiltJobMeaning | tanglenomicon_data_api/montesinos/job.py:74-154 | building fails iff some zipped pair fails. A built job is a new, unleased Montesinos job with the given id and time, whose crossing number is the sum of the stencil and whose stencil string joins it. Each of its id lists is a page of at most `2 ^ page_exp` candidates for that slot |
| MontesinosJob.EmptyCandidatesFail | tanglenomicon_data_api/montesinos/job.py:139-142 | a slot with no candidate makes the build fail, whatever page is asked for |
| MontesinosJob.BuildJob | tanglenomicon_data_api/montesinos/job.py:74-154 | uses the given id unless it is missing or empty, and a fresh one otherwise. On success it enqueues the built job and returns its id. On error it returns that error and leaves the queue unchanged |
| MontesinosJob.EnqueueBuilt | tanglenomicon_data_api/montesinos/job.py:152 | enqueueing a built job adds at most one entry, at the end: a new, unleased Montesinos job. It adds exactly the job's id to the keys, and a consistent queue stays consistent |
| MontesinosJob.FinishedMeaning | tanglenomicon_data_api/montesinos/job.py:183-189 | releasing a job removes exactly one open job, the first with that id, and keeps the others in order. The stencil becomes complete iff it was out of headroom and nothing is left open. Nothing else changes |
| MontesinosJob.FinishedSettled | tanglenomicon_data_api/montesinos/job.py:183-189 | releasing keeps "complete means no open jobs", and the release of the last open job of a stencil out of headroom completes it |
| MontesinosJob.UpdateStencil | tanglenomicon_data_api/montesinos/job.py:171-190 | raises iff no stencil has the job open or the write is refused, and then the store is unchanged. Otherwise the stencil that has the job open is replaced by its released form |
| MontesinosJob.UpsertEachDistinct | tanglenomicon_data_api/montesinos/job.py:203-223 | applying the single-id upserts of the bulk write one after another, with any repeats, gives `rec` under exactly the distinct ids of the list and leaves every other document unchanged |
| MontesinosJob.UpsertOrderIrrelevant | tanglenomicon_data_api/montesinos/job.py:203-223 | two id lists with the same members, whatever their order (`list(set(...))` has none) and repeats, store the same collection. Storing the same results a second time changes nothing |
| MontesinosJob.DistinctBound | tanglenomicon_data_api/montesinos/job.py:204-219 | a bulk write touches at most as many ids as the result list has entries |
| MontesinosJob.Store | tanglenomicon_data_api/montesinos/job.py:192-229 | raises iff the job has no results. It returns true iff there is a result id, the bulk write succeeds, and the stencil update succeeds. Each distinct id that the bulk write applied gets the job's crossing number and stencil string. The stencil is released only on full success |
| MontesinosJob.GetJobs | tanglenomicon_data_api/montesinos/job.py:251-288 | the stencil store and queue become those of `GetJobsSpec`, and no other store changes |
| MontesinosJob.ReplenishFailed | tanglenomicon_data_api/montesinos/job.py:268-288 | unfolding step of the loop used by `BuildNext`: a failed build ends the loop, writing nothing more |
| MontesinosJob.ReplenishHeadroom | tanglenomicon_data_api/montesinos/job.py:269-274 | unfolding step of the loop used by `BuildNext`: a built job is enqueued and recorded with the head it was built from, and the head moves. With room left, the loop goes on with the same stencil |
| MontesinosJob.ReplenishNoHeadroom | tanglenomicon_data_api/montesinos/job.py:274-284 | unfolding step of the loop used by `BuildNext`: without room, the stencil is written out of headroom and the next open stencil is taken and marked started. If there is none, the loop breaks |
| MontesinosJob.ReplenishDone | tanglenomicon_data_api/montesinos/job.py:268-285 | unfolding step of the loop used by `BuildAll`: when no more jobs are wanted, the stencil in hand is written back |
| MontesinosJob.ReplenishQueue | tanglenomicon_data_api/montesinos/job.py:268-284 | from any point of the loop, at most `count` more jobs are built. The queue only grows at its end, by at most one new, unleased Montesinos job per job built |
| MontesinosJob.ReplenishKeys | tanglenomicon_data_api/montesinos/job.py:268-284 | from any point of the loop, the queue's ids grow by exactly the ids handed to the jobs built |
| MontesinosJob.ReplenishShort | tanglenomicon_data_api/montesinos/job.py:277-284 | a loop that neither failed nor reached `count` jobs stopped because no open stencil was left |
| MontesinosJob.ReplenishEvolves | tanglenomicon_data_api/montesinos/job.py:268-285 | every stencil of the final store evolved from the one stored at the same place: same id and stencil array, open jobs only added, and changed only if it was open |
| MontesinosJob.GetJobsQueue | tanglenomicon_data_api/montesinos/job.py:251-288 | `get_jobs(count)` builds at most `count` jobs. It appends only new, unleased Montesinos jobs, at most one per job built, and adds exactly the ids it hands out. It builds fewer than asked only after a failure or when no open stencil is left. With no open stencil nothing changes |
| MontesinosJob.GetJobsStore | tanglenomicon_data_api/montesinos/job.py:251-288 | `get_jobs` changes only open stencils, each to started or out of headroom, with the same id and stencil array and open jobs only added. Complete and exhausted stencils are untouched, and "complete means no open jobs" is kept |
| MontesinosJob.TopUpNeverOvershoots | tanglenomicon_data_api/montesinos/job.py:307-311 | a top-up is asked for iff the new Montesinos jobs fall short of `min-new-count`, and then for a positive number of jobs. Every job it enqueues counts as new, and the new count never goes past `min-new-count` |

## Left out

- Concurrency is not modelled. This covers the two semaphores, the async
  iteration and the interleaving of the sweeps with requests: each
  operation runs atomically.
- The periodic tasks and the HTTP endpoint are left out
  (`job_queue.py` 291-321). They only call the operations above on a timer
  or on request.
- The document store (Mongo) is modelled as in-memory sequences and a
  map. The aggregation pipeline is modelled by its result: candidate
  filter, `$skip`, `$limit`. `from_dict` and `asdict` are taken as lossless
  copies.
- `uuid4`, `datetime.now` and the configuration become parameters.
  Timestamps are integers.
- Floating point is not modelled. `total_seconds()` is taken as an exact
  integer difference, and `int(page * math.pow(2, page_exp))` as the exact
  integer product.
- The `str_rep` and `crossing_num` fields of a stencil document and the
  `metadata` count of the pipeline are not modelled. The count is
  represented only by the emptiness of the candidate list.
- MontesinosHead.MoveHead requires a head with one slot per stencil entry.
  A shorter head makes `_move_head` raise `IndexError` only when the carry
  runs past its last slot; otherwise the missing slots are never read. A
  longer head has its extra slots ignored. Stencils are always created that way, and
  the stencil collection's invariant (`StencilsValid`) carries it.
- MontesinosJob.BuildJob does not distinguish the kinds of exception. A
  negative page, which the document store refuses as a negative `$skip`,
  and a slot without candidates, `NameError` or `IndexError` on the empty
  `metadata`, are two error values.
- MontesinosJob.Store models a refused ordered bulk write by the set of
  upserts that went through before it failed. Which prefix went through is
  a parameter.
- MontesinosJob.Store: the exception that `from_dict` raises in
  `_update_stencil` when no stencil has the job open is the "raised"
  outcome of UpdateStencil, which `store` swallows.
- Startup's rebuilding of the jobs still open on started stencils
  (`job.py` 291-306) is left out. Only startup's top-up threshold is
  modelled (TopUp).
- JobQueue.Queue.MarkJobComplete attaches the results of every job class,
  as the Montesinos job's `update_results` does (`job.py` 246-248). The
  base interface's `update_results` raises `NotImplementedError`
  (`interfaces/job.py` 27-29), so for a job class that does not override
  it `mark_job_complete` raises at `job_queue.py` 206 and the job stays
  `Pending`; the model treats every job class as overriding it.
- MontesinosHead.Cap and every `pageExp` are natural numbers. A negative
  `page-exp` would only enlarge the head capacities in `_move_head`, but it
  makes `math.pow(2, page-exp)` a fraction in `_build_job`, and that
  float truncation is not modelled.
- MontesinosJob.GetJobsQueue states the growth of the queue as "at most one
  entry per job built", not exactly one: an id from `uuids` may already be
  queued, and then `enqueue_job` keeps the old job.
- MontesinosJob.GetJobs: any exception inside the `get_jobs` loop is
  swallowed by the source, and the model's only such exception is a failed
  build. A refused `replace_one` in `get_jobs` is not modelled.
- Two behaviours of the code are kept as written:
  - The stale sweep (`job_queue.py` 144-158) sets a job back to `New` but
    leaves its `client_id` set.
  - The complete sweep (`job_queue.py` 161-180) evicts every complete job
    whose `store()` did not raise. `MontesinosJob.store` returns false
    instead of raising when a write is refused, so such a job is evicted
    and its results are lost.
- `job.py` refers to the ORM as `StencilDB`, `StencilStateEnum` and
  `StencilHeadStateEnum`, while `orm.py` declares `mont_stencil_db`,
  `DBjobState_Enum` and `HeadState_Enum`. The model uses one set of
  definitions with the fields and codes of `orm.py`.
