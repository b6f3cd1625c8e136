/**
 * The documents of the Montesinos collections: stencils (an enumeration
 * template with its cursor and the jobs still open against it), rational
 * tangles (the candidates a job is built from) and stored Montesinos
 * tangles (the results), together with the two stencil filters and the
 * document-store operations the job code uses on them.
 */
module MontesinosOrm {
  import opened Wrappers
  import JobQueue

  type StencilId = string

  /** Stencil states, stored as the integer codes 0..3. */
  datatype StencilState = New | Started | NoHeadroom | Complete

  function StateCode(s: StencilState): (c: int)
    ensures 0 <= c <= 3
  {
    match s
    case New => 0
    case Started => 1
    case NoHeadroom => 2
    case Complete => 3
  }

  function StateOfCode(c: int): Option<StencilState> {
    if c == 0 then Some(New)
    else if c == 1 then Some(Started)
    else if c == 2 then Some(NoHeadroom)
    else if c == 3 then Some(Complete)
    else None
  }

  /** The stored codes are exactly 0..3, one per state. */
  lemma StateCodeRoundTrip(s: StencilState, c: int)
    ensures StateOfCode(StateCode(s)) == Some(s)
    ensures StateOfCode(c).Some? <==> 0 <= c <= 3
    ensures StateOfCode(c).Some? ==> StateCode(StateOfCode(c).value) == c
  {
  }

  /** A job built from a stencil and the head position it was built from. */
  datatype OpenJob = OpenJob(jobId: JobQueue.JobId, cursor: seq<int>)

  datatype StencilRecord = StencilRecord(
    id: StencilId,
    stencilArray: seq<int>,
    head: seq<int>,
    state: StencilState,
    openJobs: seq<OpenJob>)

  /** A rational tangle: its id, crossing number and whether it lies in the unit interval. */
  datatype Rational = Rational(id: string, crossingNum: int, inUnitInterval: bool)

  /** The fields a stored Montesinos tangle gets from the job that found it. */
  datatype MontRecord = MontRecord(crossingNum: int, parentStencil: string)

  /** The head has one slot per stencil entry. */
  predicate WellFormed(r: StencilRecord) {
    |r.head| == |r.stencilArray|
  }

  /** No two documents share an id (each differs from all that follow it). */
  ghost predicate IdsDistinct(stencils: seq<StencilRecord>) {
    |stencils| == 0 ||
    ((forall j :: 1 <= j < |stencils| ==> stencils[j].id != stencils[0].id) && IdsDistinct(stencils[1..]))
  }

  /** The recursive definition says exactly that the ids are pairwise distinct. */
  lemma {:induction false} IdsDistinctPairwise(stencils: seq<StencilRecord>)
    ensures IdsDistinct(stencils) <==> forall i, j :: 0 <= i < j < |stencils| ==> stencils[i].id != stencils[j].id
    decreases |stencils|
  {
    if |stencils| > 0 {
      var tail := stencils[1..];
      IdsDistinctPairwise(tail);
      assert forall j :: 1 <= j < |stencils| ==> stencils[j] == tail[j - 1];
    }
  }

  /** Two documents of a collection with distinct ids that share an id are the same document. */
  lemma IdsDistinctAt(stencils: seq<StencilRecord>, i: nat, j: nat)
    requires IdsDistinct(stencils) && i < |stencils| && j < |stencils| && stencils[i].id == stencils[j].id
    ensures i == j
  {
    IdsDistinctPairwise(stencils);
  }

  /** The stencil collection: distinct ids, every document well formed. */
  ghost predicate StencilsValid(stencils: seq<StencilRecord>) {
    IdsDistinct(stencils) && forall i :: 0 <= i < |stencils| ==> WellFormed(stencils[i])
  }

  /** `OPEN_STEN_FILTER`: neither complete nor out of headroom. */
  predicate IsOpen(s: StencilState) {
    s != Complete && s != NoHeadroom
  }

  /** `STARTED_STEN_FILTER`: neither complete nor new. */
  predicate IsStarted(s: StencilState) {
    s != Complete && s != New
  }

  /** The two filters overlap exactly on `Started` and together miss only `Complete`. */
  lemma FiltersPartition(s: StencilState)
    ensures IsOpen(s) && IsStarted(s) <==> s == Started
    ensures IsOpen(s) || IsStarted(s) <==> s != Complete
    ensures IsOpen(s) <==> s == New || s == Started
  {
  }

  function FindFrom(stencils: seq<StencilRecord>, p: StencilRecord -> bool, from: nat): (r: Option<nat>)
    requires from <= |stencils|
    ensures r.Some? ==> from <= r.value < |stencils| && p(stencils[r.value])
    ensures r.Some? ==> forall j :: from <= j < r.value ==> !p(stencils[j])
    ensures r.None? ==> forall j :: from <= j < |stencils| ==> !p(stencils[j])
    decreases |stencils| - from
  {
    if from == |stencils| then None
    else if p(stencils[from]) then Some(from)
    else FindFrom(stencils, p, from + 1)
  }

  /** `find_one(OPEN_STEN_FILTER)`: the first open stencil in store order. */
  function FindOpen(stencils: seq<StencilRecord>): (r: Option<nat>)
    ensures r.Some? ==> r.value < |stencils| && IsOpen(stencils[r.value].state)
    ensures r.Some? ==> forall j :: 0 <= j < r.value ==> !IsOpen(stencils[j].state)
    ensures r.None? ==> forall j :: 0 <= j < |stencils| ==> !IsOpen(stencils[j].state)
  {
    FindFrom(stencils, (s: StencilRecord) => IsOpen(s.state), 0)
  }

  predicate HasOpenJob(s: StencilRecord, jobId: JobQueue.JobId) {
    exists k :: 0 <= k < |s.openJobs| && s.openJobs[k].jobId == jobId
  }

  /** `find_one({"open_jobs.job_id": jobId})`: the first stencil with that job open. */
  function FindByOpenJob(stencils: seq<StencilRecord>, jobId: JobQueue.JobId): (r: Option<nat>)
    ensures r.Some? ==> r.value < |stencils| && HasOpenJob(stencils[r.value], jobId)
    ensures r.Some? ==> forall j :: 0 <= j < r.value ==> !HasOpenJob(stencils[j], jobId)
    ensures r.None? ==> forall j :: 0 <= j < |stencils| ==> !HasOpenJob(stencils[j], jobId)
  {
    FindFrom(stencils, (s: StencilRecord) => HasOpenJob(s, jobId), 0)
  }

  /** The stencil document with id `id`. */
  function FindById(stencils: seq<StencilRecord>, id: StencilId): (r: Option<nat>)
    ensures r.Some? ==> r.value < |stencils| && stencils[r.value].id == id
    ensures r.None? ==> forall j :: 0 <= j < |stencils| ==> stencils[j].id != id
  {
    FindFrom(stencils, (s: StencilRecord) => s.id == id, 0)
  }

  /** `replace_one({"_id": rec.id}, rec)`: overwrite the document with that id, if there is one. */
  function Replace(stencils: seq<StencilRecord>, rec: StencilRecord): (r: seq<StencilRecord>)
    ensures |r| == |stencils|
    ensures forall j :: 0 <= j < |stencils| ==> r[j].id == stencils[j].id && (r[j] == stencils[j] || r[j] == rec)
    ensures IdsDistinct(stencils) ==>
      forall j :: 0 <= j < |stencils| ==> r[j] == (if stencils[j].id == rec.id then rec else stencils[j])
    ensures StencilsValid(stencils) && WellFormed(rec) ==> StencilsValid(r)
  {
    match FindById(stencils, rec.id)
    case None => stencils
    case Some(i) =>
      IdsDistinctPairwise(stencils);
      IdsDistinctPairwise(stencils[i := rec]);
      stencils[i := rec]
  }

  /**
   * A stencil object read from the store (`from_dict`), whose fields the job
   * code changes in place before writing it back.
   */
  class Stencil {
    var id: StencilId
    var stencilArray: seq<int>
    var head: seq<int>
    var state: StencilState
    var openJobs: seq<OpenJob>

    constructor FromRecord(r: StencilRecord)
      ensures Record() == r
    {
      id, stencilArray, head, state, openJobs := r.id, r.stencilArray, r.head, r.state, r.openJobs;
    }

    /** The document written back (`asdict`). */
    function Record(): StencilRecord
      reads this
    {
      StencilRecord(id, stencilArray, head, state, openJobs)
    }
  }
}
