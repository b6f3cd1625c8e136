/**
 * Montesinos jobs: building a job from a stencil and its head (the crossing
 * number, the stencil string and one page of rational-tangle ids per
 * stencil slot), storing a completed job's results and releasing it from
 * its stencil, and replenishing the job queue from the open stencils.
 *
 * The stores are fields of `Db`; a write that the document store may refuse
 * is a parameter saying whether it failed.
 */
module MontesinosJob {
  import opened Wrappers
  import JQ = JobQueue
  import Orm = MontesinosOrm
  import Head = MontesinosHead

  function Min(a: int, b: int): int {
    if a <= b then a else b
  }

  function Max0(a: int): nat {
    if a > 0 then a else 0
  }

  /** The page size `2 ^ page_exp`. */
  function Pow2(e: nat): (r: nat)
    ensures r >= 1
  {
    if e == 0 then 1 else 2 * Pow2(e - 1)
  }

  function Sum(s: seq<int>): int {
    if |s| == 0 then 0 else Sum(s[..|s| - 1]) + s[|s| - 1]
  }

  // ---------------------------------------------------------------------
  // The stencil string: the entries in decimal, separated by single spaces.

  function DigitChar(d: nat): char
    requires d < 10
  {
    ('0' as int + d) as char
  }

  function NatToString(n: nat): string
  {
    if n < 10 then [DigitChar(n)] else NatToString(n / 10) + [DigitChar(n % 10)]
  }

  /** `str` of an integer. */
  function IntToString(i: int): string {
    if i < 0 then "-" + NatToString(-i) else NatToString(i)
  }

  /** `" ".join(map(str, xs))`. */
  function JoinSpaced(xs: seq<int>): string {
    if |xs| == 0 then ""
    else if |xs| == 1 then IntToString(xs[0])
    else IntToString(xs[0]) + " " + JoinSpaced(xs[1..])
  }

  /** `s.split(" ")`: the pieces between single spaces. */
  function Words(s: string): (w: seq<string>)
    ensures |w| >= 1
  {
    if |s| == 0 then [""]
    else
      var rest := Words(s[1..]);
      if s[0] == ' ' then [""] + rest else [[s[0]] + rest[0]] + rest[1..]
  }

  lemma {:induction false} NatToStringNoSpace(n: nat)
    ensures ' ' !in NatToString(n)
  {
    if n >= 10 {
      NatToStringNoSpace(n / 10);
    }
  }

  lemma {:induction false} WordsNoSpace(a: string)
    requires ' ' !in a
    ensures Words(a) == [a]
  {
    if |a| > 0 {
      WordsNoSpace(a[1..]);
      assert [a[0]] + a[1..] == a;
    }
  }

  lemma {:induction false} WordsSplit(a: string, b: string)
    requires ' ' !in a
    ensures Words(a + " " + b) == [a] + Words(b)
  {
    var s := a + " " + b;
    if |a| == 0 {
      assert s[1..] == b;
    } else {
      assert s[1..] == a[1..] + " " + b;
      WordsSplit(a[1..], b);
      assert [a[0]] + a[1..] == a;
    }
  }

  /** The stencil string splits back into the decimal strings of the entries. */
  lemma {:induction false} StencilStringWords(xs: seq<int>)
    requires |xs| > 0
    ensures Words(JoinSpaced(xs)) == seq(|xs|, i requires 0 <= i < |xs| => IntToString(xs[i]))
  {
    var first := IntToString(xs[0]);
    assert ' ' !in first by {
      if xs[0] < 0 {
        NatToStringNoSpace(-xs[0]);
      } else {
        NatToStringNoSpace(xs[0]);
      }
    }
    if |xs| == 1 {
      WordsNoSpace(first);
    } else {
      WordsSplit(first, JoinSpaced(xs[1..]));
      StencilStringWords(xs[1..]);
    }
  }

  // ---------------------------------------------------------------------
  // Building a job.

  /** A candidate for a slot of crossing number `cn`. */
  predicate IsCandidate(r: Orm.Rational, cn: int) {
    r.crossingNum == cn && r.inUnitInterval
  }

  /** The ids of the candidates for crossing number `cn`, in store order. */
  function Matching(rats: seq<Orm.Rational>, cn: int): (ids: seq<string>)
    ensures |ids| <= |rats|
  {
    if |rats| == 0 then []
    else if IsCandidate(rats[0], cn) then [rats[0].id] + Matching(rats[1..], cn)
    else Matching(rats[1..], cn)
  }

  /** An id is matched iff it is the id of a candidate. */
  lemma {:induction false} MatchingMeaning(rats: seq<Orm.Rational>, cn: int, x: string)
    ensures x in Matching(rats, cn) <==> exists m :: 0 <= m < |rats| && IsCandidate(rats[m], cn) && rats[m].id == x
  {
    if |rats| > 0 {
      MatchingMeaning(rats[1..], cn, x);
      if exists m :: 0 <= m < |rats| && IsCandidate(rats[m], cn) && rats[m].id == x {
        var m :| 0 <= m < |rats| && IsCandidate(rats[m], cn) && rats[m].id == x;
        if m > 0 {
          assert rats[1..][m - 1] == rats[m];
        }
      }
      if x in Matching(rats[1..], cn) {
        var m :| 0 <= m < |rats[1..]| && IsCandidate(rats[1..][m], cn) && rats[1..][m].id == x;
        assert rats[m + 1] == rats[1..][m];
      }
    }
  }

  /** `$skip: page * size` then `$limit: size`. */
  function PageOf(ids: seq<string>, page: nat, size: nat): (p: seq<string>)
    ensures |p| <= size
    ensures forall x :: x in p ==> x in ids
  {
    var lo := Min(page * size, |ids|);
    var hi := Min(lo + size, |ids|);
    ids[lo..hi]
  }

  /** Pages 0 .. m - 1 one after the other. */
  function PagesUpTo(ids: seq<string>, size: nat, m: nat): seq<string> {
    if m == 0 then [] else PagesUpTo(ids, size, m - 1) + PageOf(ids, m - 1, size)
  }

  /** Consecutive pages neither overlap nor leave a gap: the first m pages are a prefix of the ids. */
  lemma {:induction false} PagesCover(ids: seq<string>, size: nat, m: nat)
    ensures PagesUpTo(ids, size, m) == ids[..Min(m * size, |ids|)]
  {
    if m > 0 {
      PagesCover(ids, size, m - 1);
      PageStart(m, size);
      PageAfter(ids, (m - 1) * size, size);
    }
  }

  lemma PageStart(m: nat, size: nat)
    requires m > 0
    ensures (m - 1) * size + size == m * size
  {
  }

  /** The slice of `size` ids starting at `p` (clipped to the ids) extends the prefix before `p`. */
  lemma PageAfter(ids: seq<string>, p: nat, size: nat)
    ensures var a := Min(p, |ids|);
      ids[..a] + ids[a..Min(a + size, |ids|)] == ids[..Min(p + size, |ids|)]
  {
    var a := Min(p, |ids|);
    assert Min(a + size, |ids|) == Min(p + size, |ids|);
  }

  datatype BuildError = NegativeSkip | EmptyRationalList

  /** A slot can be filled: its page is not negative and it has candidates. */
  predicate PairOk(rats: seq<Orm.Rational>, cn: int, page: int) {
    page >= 0 && |Matching(rats, cn)| > 0
  }

  /** The lists of rational-tangle ids for the first n (crossing number, page) pairs. */
  function RatListsUpTo(rats: seq<Orm.Rational>, stencil: seq<int>, pages: seq<int>, pageExp: nat, n: nat)
    : Result<seq<seq<string>>, BuildError>
    requires n <= |stencil| && n <= |pages|
  {
    if n == 0 then Ok([])
    else match RatListsUpTo(rats, stencil, pages, pageExp, n - 1)
      case Err(e) => Err(e)
      case Ok(ls) =>
        if pages[n - 1] < 0 then Err(NegativeSkip)
        else
          var ids := Matching(rats, stencil[n - 1]);
          if |ids| == 0 then Err(EmptyRationalList)
          else Ok(ls + [PageOf(ids, pages[n - 1], Pow2(pageExp))])
  }

  lemma {:induction false} RatListsMeaning(rats: seq<Orm.Rational>, stencil: seq<int>, pages: seq<int>, pageExp: nat, n: nat)
    requires n <= |stencil| && n <= |pages|
    ensures RatListsUpTo(rats, stencil, pages, pageExp, n).Ok? <==>
      forall i :: 0 <= i < n ==> PairOk(rats, stencil[i], pages[i])
    ensures RatListsUpTo(rats, stencil, pages, pageExp, n).Ok? ==>
      var ls := RatListsUpTo(rats, stencil, pages, pageExp, n).value;
      |ls| == n &&
      forall i :: 0 <= i < n ==> pages[i] >= 0 && ls[i] == PageOf(Matching(rats, stencil[i]), pages[i], Pow2(pageExp))
    ensures RatListsUpTo(rats, stencil, pages, pageExp, n).Err? ==>
      exists i :: 0 <= i < n && !PairOk(rats, stencil[i], pages[i]) &&
        (forall j :: 0 <= j < i ==> PairOk(rats, stencil[j], pages[j])) &&
        RatListsUpTo(rats, stencil, pages, pageExp, n).error == (if pages[i] < 0 then NegativeSkip else EmptyRationalList)
  {
    if n > 0 {
      RatListsMeaning(rats, stencil, pages, pageExp, n - 1);
    }
  }

  /** The id used for a job: the given one unless it is missing or empty, else a fresh one. */
  function ChosenId(jobId: Option<JQ.JobId>, freshId: JQ.JobId): JQ.JobId {
    if jobId.Some? && jobId.value != "" then jobId.value else freshId
  }

  /** The job `_build_job` enqueues, or the error it raises. */
  function BuiltJob(rats: seq<Orm.Rational>, stencil: seq<int>, pages: seq<int>, jobId: JQ.JobId, now: int, pageExp: nat)
    : Result<JQ.Job, BuildError>
  {
    match RatListsUpTo(rats, stencil, pages, pageExp, Min(|stencil|, |pages|))
    case Err(e) => Err(e)
    case Ok(ls) =>
      Ok(JQ.Job(jobId, JQ.MontesinosJob, JQ.New, None, now, None,
                JQ.MontesinosPayload(Sum(stencil), JoinSpaced(stencil), ls)))
  }

  /**
   * Building fails iff some zipped pair has a negative page or no candidate
   * at all; a built job is a new, unleased Montesinos job whose crossing
   * number is the stencil's sum, whose stencil string is the joined
   * stencil and whose i-th list is page `pages[i]` of the candidates for
   * `stencil[i]`: at most `2 ^ page_exp` ids, each a candidate's.
   */
  lemma BuiltJobMeaning(rats: seq<Orm.Rational>, stencil: seq<int>, pages: seq<int>, jobId: JQ.JobId, now: int, pageExp: nat)
    ensures var n := Min(|stencil|, |pages|);
      BuiltJob(rats, stencil, pages, jobId, now, pageExp).Err? <==>
      exists i :: 0 <= i < n && !PairOk(rats, stencil[i], pages[i])
    ensures var r := BuiltJob(rats, stencil, pages, jobId, now, pageExp);
      r.Ok? ==>
        r.value.jobId == jobId && r.value.cls == JQ.MontesinosJob && r.value.curState == JQ.New &&
        r.value.clientId.None? && r.value.timestamp == now && r.value.results.None? &&
        r.value.payload.MontesinosPayload? &&
        r.value.payload.crossingNum == Sum(stencil) && r.value.payload.stencil == JoinSpaced(stencil)
    ensures var n, r := Min(|stencil|, |pages|), BuiltJob(rats, stencil, pages, jobId, now, pageExp);
      r.Ok? ==>
        var ls := r.value.payload.ratLists;
        |ls| == n &&
        (forall i :: 0 <= i < n ==> pages[i] >= 0 && ls[i] == PageOf(Matching(rats, stencil[i]), pages[i], Pow2(pageExp))) &&
        (forall i :: 0 <= i < n ==> |ls[i]| <= Pow2(pageExp)) &&
        (forall i, x :: 0 <= i < n && x in ls[i] ==>
           exists m :: 0 <= m < |rats| && IsCandidate(rats[m], stencil[i]) && rats[m].id == x)
  {
    var n := Min(|stencil|, |pages|);
    RatListsMeaning(rats, stencil, pages, pageExp, n);
    var r := BuiltJob(rats, stencil, pages, jobId, now, pageExp);
    if r.Ok? {
      var ls := r.value.payload.ratLists;
      forall i, x | 0 <= i < n && x in ls[i]
        ensures exists m :: 0 <= m < |rats| && IsCandidate(rats[m], stencil[i]) && rats[m].id == x
      {
        MatchingMeaning(rats, stencil[i], x);
      }
    }
  }

  /** A slot with no candidate at all makes building fail, whatever page is asked for. */
  lemma EmptyCandidatesFail(rats: seq<Orm.Rational>, stencil: seq<int>, pages: seq<int>, jobId: JQ.JobId, now: int, pageExp: nat, i: nat)
    requires i < |stencil| && i < |pages| && Matching(rats, stencil[i]) == []
    ensures BuiltJob(rats, stencil, pages, jobId, now, pageExp).Err?
  {
    BuiltJobMeaning(rats, stencil, pages, jobId, now, pageExp);
    assert !PairOk(rats, stencil[i], pages[i]);
  }

  /**
   * `_build_job`: builds the job for `stencil` and `pages` and enqueues it,
   * returning its id; an error leaves the queue as it was.
   */
  method BuildJob(jq: JQ.Queue, rats: seq<Orm.Rational>, stencil: seq<int>, pages: seq<int>,
                  jobId: Option<JQ.JobId>, freshId: JQ.JobId, now: int, pageExp: nat)
    returns (r: Result<JQ.JobId, BuildError>)
    requires jq.Valid()
    modifies jq
    ensures jq.Valid()
    ensures var b := BuiltJob(rats, stencil, pages, ChosenId(jobId, freshId), now, pageExp);
      (b.Err? ==> r == Err(b.error) && jq.entries == old(jq.entries)) &&
      (b.Ok? ==> r == Ok(ChosenId(jobId, freshId)) && jq.entries == JQ.WithJob(old(jq.entries), b.value))
  {
    var id := freshId;
    if jobId.Some? && jobId.value != "" {
      id := jobId.value;
    }
    var crossingNum := 0;
    for i := 0 to |stencil|
      invariant crossingNum == Sum(stencil[..i])
    {
      assert stencil[..i + 1][..i] == stencil[..i];
      crossingNum := crossingNum + stencil[i];
    }
    assert stencil[..|stencil|] == stencil;
    var stencilString := JoinSpaced(stencil);
    var n := Min(|stencil|, |pages|);
    var ratLists: seq<seq<string>> := [];
    for i := 0 to n
      invariant RatListsUpTo(rats, stencil, pages, pageExp, i) == Ok(ratLists)
    {
      var cn, page := stencil[i], pages[i];
      if page < 0 {
        RatListsErrKept(rats, stencil, pages, pageExp, i + 1, n);
        return Err(NegativeSkip);
      }
      var ids := Matching(rats, cn);
      if |ids| == 0 {
        RatListsErrKept(rats, stencil, pages, pageExp, i + 1, n);
        return Err(EmptyRationalList);
      }
      ratLists := ratLists + [PageOf(ids, page, Pow2(pageExp))];
    }
    var job := JQ.Job(id, JQ.MontesinosJob, JQ.New, None, now, None,
                      JQ.MontesinosPayload(crossingNum, stencilString, ratLists));
    var _ := jq.Enqueue(job);
    return Ok(id);
  }

  /** Once a pair fails, building fails with that pair's error. */
  lemma {:induction false} RatListsErrKept(rats: seq<Orm.Rational>, stencil: seq<int>, pages: seq<int>, pageExp: nat, i: nat, n: nat)
    requires i <= n <= |stencil| && n <= |pages|
    requires RatListsUpTo(rats, stencil, pages, pageExp, i).Err?
    ensures RatListsUpTo(rats, stencil, pages, pageExp, n) == RatListsUpTo(rats, stencil, pages, pageExp, i)
    decreases n - i
  {
    if i < n {
      RatListsErrKept(rats, stencil, pages, pageExp, i, n - 1);
    }
  }

  // ---------------------------------------------------------------------
  // Storing results and releasing the job from its stencil.

  /** The document store of the Montesinos collections. */
  class Db {
    var stencils: seq<Orm.StencilRecord>
    var montesinos: map<string, Orm.MontRecord>
    var rationals: seq<Orm.Rational>

    ghost predicate Valid()
      reads this
    {
      Orm.StencilsValid(stencils)
    }

    constructor (stencils: seq<Orm.StencilRecord>, montesinos: map<string, Orm.MontRecord>, rationals: seq<Orm.Rational>)
      requires Orm.StencilsValid(stencils)
      ensures Valid()
      ensures this.stencils == stencils && this.montesinos == montesinos && this.rationals == rationals
    {
      this.stencils, this.montesinos, this.rationals := stencils, montesinos, rationals;
    }
  }

  /** The first open job of `jobs` with id `jobId` (`list.index`). */
  function OpenJobIndex(jobs: seq<Orm.OpenJob>, jobId: JQ.JobId): (k: nat)
    requires exists k :: 0 <= k < |jobs| && jobs[k].jobId == jobId
    ensures k < |jobs| && jobs[k].jobId == jobId
    ensures forall j :: 0 <= j < k ==> jobs[j].jobId != jobId
  {
    if jobs[0].jobId == jobId then 0
    else
      var k :| 0 <= k < |jobs| && jobs[k].jobId == jobId;
      assert jobs[1..][k - 1].jobId == jobId;
      OpenJobIndex(jobs[1..], jobId) + 1
  }

  /**
   * A stencil once job `jobId` is finished: that job leaves the open jobs,
   * and a stencil out of headroom with nothing open is complete.
   */
  function Finished(rec: Orm.StencilRecord, jobId: JQ.JobId): Orm.StencilRecord
    requires Orm.HasOpenJob(rec, jobId)
  {
    var k := OpenJobIndex(rec.openJobs, jobId);
    var rest := rec.openJobs[..k] + rec.openJobs[k + 1..];
    rec.(openJobs := rest, state := if rec.state == Orm.NoHeadroom && |rest| == 0 then Orm.Complete else rec.state)
  }

  /** Removing the k-th entry of a sequence takes exactly that entry out of its multiset. */
  lemma RemovedAt<T>(xs: seq<T>, k: nat)
    requires k < |xs|
    ensures multiset(xs[..k] + xs[k + 1..]) + multiset{xs[k]} == multiset(xs)
  {
    assert xs == xs[..k] + [xs[k]] + xs[k + 1..];
  }

  /**
   * Finishing a job removes exactly one open job, the first with that id,
   * keeping the others in order; the stencil becomes complete iff it was
   * out of headroom and nothing is left open, and nothing else changes.
   */
  lemma FinishedMeaning(rec: Orm.StencilRecord, jobId: JQ.JobId)
    requires Orm.HasOpenJob(rec, jobId)
    ensures var r := Finished(rec, jobId);
      r.id == rec.id && r.stencilArray == rec.stencilArray && r.head == rec.head &&
      |r.openJobs| == |rec.openJobs| - 1 &&
      exists k :: 0 <= k < |rec.openJobs| && rec.openJobs[k].jobId == jobId &&
        (forall j :: 0 <= j < k ==> rec.openJobs[j].jobId != jobId) &&
        r.openJobs == rec.openJobs[..k] + rec.openJobs[k + 1..] &&
        multiset(r.openJobs) + multiset{rec.openJobs[k]} == multiset(rec.openJobs)
    ensures var r := Finished(rec, jobId);
      (r.state == Orm.Complete <==> rec.state == Orm.Complete || (rec.state == Orm.NoHeadroom && r.openJobs == [])) &&
      (r.state != Orm.Complete ==> r.state == rec.state)
  {
    var k := OpenJobIndex(rec.openJobs, jobId);
    var rest := rec.openJobs[..k] + rec.openJobs[k + 1..];
    RemovedAt(rec.openJobs, k);
    assert Finished(rec, jobId) ==
      rec.(openJobs := rest, state := if rec.state == Orm.NoHeadroom && |rest| == 0 then Orm.Complete else rec.state);
    assert |rest| == |rec.openJobs| - 1;
  }

  /** A stencil is settled when being complete means nothing is open on it. */
  predicate Settled(rec: Orm.StencilRecord) {
    rec.state == Orm.Complete ==> rec.openJobs == []
  }

  /** Finishing a job keeps a stencil settled, and completes it once its last job is finished after it ran out of headroom. */
  lemma FinishedSettled(rec: Orm.StencilRecord, jobId: JQ.JobId)
    requires Orm.HasOpenJob(rec, jobId) && Settled(rec)
    ensures Settled(Finished(rec, jobId))
    ensures rec.state == Orm.NoHeadroom && |rec.openJobs| == 1 ==> Finished(rec, jobId).state == Orm.Complete
    ensures rec.state != Orm.Complete
  {
  }

  /**
   * `_update_stencil`: releases job `jobId` from the stencil it is open on.
   * Raises when no stencil has it open or when the write is refused, and
   * then the store is unchanged.
   */
  method UpdateStencil(db: Db, jobId: JQ.JobId, replaceFails: bool) returns (raised: bool)
    requires db.Valid()
    modifies db
    ensures db.Valid()
    ensures db.rationals == old(db.rationals) && db.montesinos == old(db.montesinos)
    ensures raised <==> Orm.FindByOpenJob(old(db.stencils), jobId).None? || replaceFails
    ensures raised ==> db.stencils == old(db.stencils)
    ensures !raised ==>
      var i := Orm.FindByOpenJob(old(db.stencils), jobId).value;
      db.stencils == Orm.Replace(old(db.stencils), Finished(old(db.stencils)[i], jobId))
  {
    var found := Orm.FindByOpenJob(db.stencils, jobId);
    if found.None? {
      return true;
    }
    assert Orm.WellFormed(db.stencils[found.value]);
    var s := new Orm.Stencil.FromRecord(db.stencils[found.value]);
    var k := OpenJobIndex(s.openJobs, jobId);
    s.openJobs := s.openJobs[..k] + s.openJobs[k + 1..];
    if s.state == Orm.NoHeadroom && |s.openJobs| == 0 {
      s.state := Orm.Complete;
    }
    assert s.Record() == Finished(db.stencils[found.value], jobId);
    if replaceFails {
      return true;
    }
    db.stencils := Orm.Replace(db.stencils, s.Record());
    return false;
  }

  /** What `store` does: raise, or return whether everything was stored. */
  datatype StoreOutcome = Raised | Returned(stored: bool)

  function DistinctIds(montList: seq<string>): set<string> {
    set x | x in montList
  }

  /** Upserting `rec` under every id of `ids`. */
  function Upserted(store: map<string, Orm.MontRecord>, ids: set<string>, rec: Orm.MontRecord)
    : map<string, Orm.MontRecord>
  {
    map id | id in store.Keys + ids :: if id in ids then rec else store[id]
  }

  /** The `UpdateOne(..., upsert=True)` requests of a bulk write, applied one after another in list order. */
  function UpsertEach(store: map<string, Orm.MontRecord>, ids: seq<string>, rec: Orm.MontRecord)
    : map<string, Orm.MontRecord>
    decreases |ids|
  {
    if |ids| == 0 then store else UpsertEach(store[ids[0] := rec], ids[1..], rec)
  }

  /**
   * Applying the upserts one by one, in any order and with any repeats,
   * gives the collection with `rec` under exactly the distinct ids of the
   * list and every other document unchanged.
   */
  lemma {:induction false} UpsertEachDistinct(store: map<string, Orm.MontRecord>, ids: seq<string>, rec: Orm.MontRecord)
    ensures UpsertEach(store, ids, rec) == Upserted(store, DistinctIds(ids), rec)
    decreases |ids|
  {
    if |ids| > 0 {
      UpsertEachDistinct(store[ids[0] := rec], ids[1..], rec);
      assert DistinctIds(ids) == {ids[0]} + DistinctIds(ids[1..]) by {
        assert ids == [ids[0]] + ids[1..];
      }
      assert Upserted(store[ids[0] := rec], DistinctIds(ids[1..]), rec) == Upserted(store, DistinctIds(ids), rec);
    } else {
      assert Upserted(store, DistinctIds(ids), rec) == store;
    }
  }

  /**
   * Two lists with the same ids, whatever their order and repeats, store the
   * same collection, and storing the second after the first changes nothing.
   */
  lemma UpsertOrderIrrelevant(store: map<string, Orm.MontRecord>, xs: seq<string>, ys: seq<string>, rec: Orm.MontRecord)
    requires forall x :: x in xs <==> x in ys
    ensures UpsertEach(store, xs, rec) == UpsertEach(store, ys, rec)
    ensures UpsertEach(UpsertEach(store, xs, rec), ys, rec) == UpsertEach(store, xs, rec)
  {
    UpsertEachDistinct(store, xs, rec);
    UpsertEachDistinct(store, ys, rec);
    UpsertEachDistinct(UpsertEach(store, xs, rec), ys, rec);
    assert DistinctIds(xs) == DistinctIds(ys);
  }

  /** A bulk write touches at most as many ids as the result list has entries. */
  lemma {:induction false} DistinctBound(montList: seq<string>)
    ensures |DistinctIds(montList)| <= |montList|
  {
    if |montList| > 0 {
      var last := montList[|montList| - 1];
      var init := montList[..|montList| - 1];
      assert montList == init + [last];
      assert DistinctIds(montList) == DistinctIds(init) + {last};
      DistinctBound(init);
    }
  }

  /** The ids a `store` call writes, given which writes of a failed bulk write went through. */
  function WrittenIds(ids: set<string>, bulkFailure: Option<set<string>>): set<string> {
    match bulkFailure
    case None => ids
    case Some(applied) => applied * ids
  }

  /** The distinct result ids of a job, none when it has no results. */
  function ResultIds(job: JQ.Job): set<string> {
    if job.results.None? then {} else DistinctIds(job.results.value.montList)
  }

  /**
   * `MontesinosJob.store`. A job without results raises. With no result
   * ids it returns false and writes nothing. Otherwise each distinct id is
   * upserted with the job's crossing number and stencil string; a refused
   * bulk write (`bulkFailure` says which upserts went through) or a failed
   * stencil update is swallowed and returns false.
   */
  method Store(db: Db, job: JQ.Job, bulkFailure: Option<set<string>>, replaceFails: bool) returns (out: StoreOutcome)
    requires db.Valid() && job.payload.MontesinosPayload?
    modifies db
    ensures db.Valid() && db.rationals == old(db.rationals)
    ensures out == Raised <==> job.results.None?
    ensures out == Returned(true) <==>
      job.results.Some? && |ResultIds(job)| > 0 && bulkFailure.None? &&
      Orm.FindByOpenJob(old(db.stencils), job.jobId).Some? && !replaceFails
    ensures |ResultIds(job)| == 0 ==> db.montesinos == old(db.montesinos)
    ensures |ResultIds(job)| > 0 ==>
      db.montesinos == Upserted(old(db.montesinos), WrittenIds(ResultIds(job), bulkFailure),
                                Orm.MontRecord(job.payload.crossingNum, job.payload.stencil))
    ensures out != Returned(true) ==> db.stencils == old(db.stencils)
    ensures out == Returned(true) ==>
      var i := Orm.FindByOpenJob(old(db.stencils), job.jobId).value;
      db.stencils == Orm.Replace(old(db.stencils), Finished(old(db.stencils)[i], job.jobId))
  {
    if job.results.None? {
      return Raised;
    }
    var ids := DistinctIds(job.results.value.montList);
    if |ids| == 0 {
      return Returned(false);
    }
    var rec := Orm.MontRecord(job.payload.crossingNum, job.payload.stencil);
    match bulkFailure {
      case Some(applied) =>
        db.montesinos := Upserted(db.montesinos, applied * ids, rec);
        return Returned(false);
      case None =>
        db.montesinos := Upserted(db.montesinos, ids, rec);
        var raised := UpdateStencil(db, job.jobId, replaceFails);
        return Returned(!raised);
    }
  }

  // ---------------------------------------------------------------------
  // Replenishing the queue from the open stencils.

  /** The stencil store and queue after `get_jobs`, the number of jobs built and whether building failed. */
  datatype Replenished = Replenished(stencils: seq<Orm.StencilRecord>, queue: seq<JQ.Entry>, built: nat, failed: bool)

  /**
   * The `get_jobs` loop from the point where `inHand` is the stencil being
   * worked on, `count` jobs are still wanted and `n` were built so far; the
   * n-th job built gets the id `uuids(n)`.
   */
  function Replenish(rats: seq<Orm.Rational>, stencils: seq<Orm.StencilRecord>, queue: seq<JQ.Entry>,
                     inHand: Orm.StencilRecord, count: int, n: nat,
                     uuids: nat -> JQ.JobId, now: int, pageExp: nat): Replenished
    requires Orm.StencilsValid(stencils) && Orm.WellFormed(inHand)
    decreases Max0(count), 2
  {
    if count <= 0 then Replenished(Orm.Replace(stencils, inHand), queue, n, false)
    else ReplenishStep(rats, stencils, queue, inHand, count, n, uuids, now, pageExp)
  }

  /**
   * One pass of the `get_jobs` loop body: build a job from the stencil in
   * hand; a failed build ends the loop with nothing more written.
   */
  function ReplenishStep(rats: seq<Orm.Rational>, stencils: seq<Orm.StencilRecord>, queue: seq<JQ.Entry>,
                         inHand: Orm.StencilRecord, count: int, n: nat,
                         uuids: nat -> JQ.JobId, now: int, pageExp: nat): Replenished
    requires Orm.StencilsValid(stencils) && Orm.WellFormed(inHand) && count > 0
    decreases Max0(count), 1
  {
    match BuiltJob(rats, inHand.stencilArray, inHand.head, uuids(n), now, pageExp)
    case Err(_) => Replenished(stencils, queue, n, true)
    case Ok(job) =>
      ReplenishMoved(rats, stencils, JQ.WithJob(queue, job), inHand, count, n, uuids, now, pageExp)
  }

  /**
   * The rest of the pass once the job was enqueued: record it on the
   * stencil and move the head; out of headroom, write the stencil back and
   * take the next open one.
   */
  function ReplenishMoved(rats: seq<Orm.Rational>, stencils: seq<Orm.StencilRecord>, queue: seq<JQ.Entry>,
                          inHand: Orm.StencilRecord, count: int, n: nat,
                          uuids: nat -> JQ.JobId, now: int, pageExp: nat): Replenished
    requires Orm.StencilsValid(stencils) && Orm.WellFormed(inHand) && count > 0
    decreases Max0(count), 0
  {
    var moved := Moved(inHand, uuids(n), pageExp);
    if Head.NextHead(inHand.stencilArray, inHand.head, pageExp).1 == Head.Headroom then
      Replenish(rats, stencils, queue, moved, count - 1, n + 1, uuids, now, pageExp)
    else
      var exhausted := moved.(state := Orm.NoHeadroom);
      var stencils' := Orm.Replace(stencils, exhausted);
      match Orm.FindOpen(stencils')
      case None => Replenished(Orm.Replace(stencils', exhausted), queue, n + 1, false)
      case Some(j) =>
        assert Orm.WellFormed(stencils'[j]);
        Replenish(rats, stencils', queue, stencils'[j].(state := Orm.Started), count - 1, n + 1, uuids, now, pageExp)
  }

  /** The stencil in hand once job `jobId` was built from it: the job is recorded with the head, and the head moves. */
  function Moved(inHand: Orm.StencilRecord, jobId: JQ.JobId, pageExp: nat): (r: Orm.StencilRecord)
    requires Orm.WellFormed(inHand)
    ensures Orm.WellFormed(r)
  {
    inHand.(openJobs := inHand.openJobs + [Orm.OpenJob(jobId, inHand.head)],
            head := Head.NextHead(inHand.stencilArray, inHand.head, pageExp).0)
  }

  /** `get_jobs(count)` as a function of the stores. */
  function GetJobsSpec(rats: seq<Orm.Rational>, stencils: seq<Orm.StencilRecord>, queue: seq<JQ.Entry>,
                       count: int, uuids: nat -> JQ.JobId, now: int, pageExp: nat): Replenished
    requires Orm.StencilsValid(stencils)
  {
    match Orm.FindOpen(stencils)
    case None => Replenished(stencils, queue, 0, false)
    case Some(j) =>
      assert Orm.WellFormed(stencils[j]);
      Replenish(rats, stencils, queue, stencils[j].(state := Orm.Started), count, 0, uuids, now, pageExp)
  }

  /** A failed build ends the loop with nothing more written. */
  lemma ReplenishFailed(rats: seq<Orm.Rational>, stencils: seq<Orm.StencilRecord>, queue: seq<JQ.Entry>,
                        inHand: Orm.StencilRecord, count: int, n: nat,
                        uuids: nat -> JQ.JobId, now: int, pageExp: nat)
    requires Orm.StencilsValid(stencils) && Orm.WellFormed(inHand) && count > 0
    requires BuiltJob(rats, inHand.stencilArray, inHand.head, uuids(n), now, pageExp).Err?
    ensures Replenish(rats, stencils, queue, inHand, count, n, uuids, now, pageExp) == Replenished(stencils, queue, n, true)
  {
  }

  /** A built job whose head move finds room: the loop goes on with the moved stencil. */
  lemma ReplenishHeadroom(rats: seq<Orm.Rational>, stencils: seq<Orm.StencilRecord>, queue: seq<JQ.Entry>,
                          inHand: Orm.StencilRecord, count: int, n: nat,
                          uuids: nat -> JQ.JobId, now: int, pageExp: nat)
    requires Orm.StencilsValid(stencils) && Orm.WellFormed(inHand) && count > 0
    requires BuiltJob(rats, inHand.stencilArray, inHand.head, uuids(n), now, pageExp).Ok?
    requires Head.NextHead(inHand.stencilArray, inHand.head, pageExp).1 == Head.Headroom
    ensures var job := BuiltJob(rats, inHand.stencilArray, inHand.head, uuids(n), now, pageExp).value;
      Replenish(rats, stencils, queue, inHand, count, n, uuids, now, pageExp) ==
      Replenish(rats, stencils, JQ.WithJob(queue, job), Moved(inHand, uuids(n), pageExp), count - 1, n + 1, uuids, now, pageExp)
  {
    var job := BuiltJob(rats, inHand.stencilArray, inHand.head, uuids(n), now, pageExp).value;
    assert Replenish(rats, stencils, queue, inHand, count, n, uuids, now, pageExp) ==
      ReplenishMoved(rats, stencils, JQ.WithJob(queue, job), inHand, count, n, uuids, now, pageExp);
  }

  /** A built job whose head move finds no room: the stencil is written out of headroom and the next open one is taken. */
  lemma ReplenishNoHeadroom(rats: seq<Orm.Rational>, stencils: seq<Orm.StencilRecord>, queue: seq<JQ.Entry>,
                            inHand: Orm.StencilRecord, count: int, n: nat,
                            uuids: nat -> JQ.JobId, now: int, pageExp: nat)
    requires Orm.StencilsValid(stencils) && Orm.WellFormed(inHand) && count > 0
    requires BuiltJob(rats, inHand.stencilArray, inHand.head, uuids(n), now, pageExp).Ok?
    requires Head.NextHead(inHand.stencilArray, inHand.head, pageExp).1 == Head.NoHeadroom
    ensures var job := BuiltJob(rats, inHand.stencilArray, inHand.head, uuids(n), now, pageExp).value;
      var exhausted := Moved(inHand, uuids(n), pageExp).(state := Orm.NoHeadroom);
      var stencils' := Orm.Replace(stencils, exhausted);
      var r := Replenish(rats, stencils, queue, inHand, count, n, uuids, now, pageExp);
      (Orm.FindOpen(stencils').None? ==> r == Replenished(Orm.Replace(stencils', exhausted), JQ.WithJob(queue, job), n + 1, false)) &&
      (Orm.FindOpen(stencils').Some? ==>
         assert Orm.WellFormed(stencils'[Orm.FindOpen(stencils').value]);
         r == Replenish(rats, stencils', JQ.WithJob(queue, job), stencils'[Orm.FindOpen(stencils').value].(state := Orm.Started),
                        count - 1, n + 1, uuids, now, pageExp))
  {
    var job := BuiltJob(rats, inHand.stencilArray, inHand.head, uuids(n), now, pageExp).value;
    assert Replenish(rats, stencils, queue, inHand, count, n, uuids, now, pageExp) ==
      ReplenishMoved(rats, stencils, JQ.WithJob(queue, job), inHand, count, n, uuids, now, pageExp);
  }

  /** With no more jobs wanted the stencil in hand is written back and the loop ends. */
  lemma ReplenishDone(rats: seq<Orm.Rational>, stencils: seq<Orm.StencilRecord>, queue: seq<JQ.Entry>,
                      inHand: Orm.StencilRecord, count: int, n: nat,
                      uuids: nat -> JQ.JobId, now: int, pageExp: nat)
    requires Orm.StencilsValid(stencils) && Orm.WellFormed(inHand) && count <= 0
    ensures Replenish(rats, stencils, queue, inHand, count, n, uuids, now, pageExp) ==
      Replenished(Orm.Replace(stencils, inHand), queue, n, false)
  {
  }

  /** A job that builds is enqueued and the pass goes on to record it. */
  lemma ReplenishBuilt(rats: seq<Orm.Rational>, stencils: seq<Orm.StencilRecord>, queue: seq<JQ.Entry>,
                       inHand: Orm.StencilRecord, count: int, n: nat,
                       uuids: nat -> JQ.JobId, now: int, pageExp: nat)
    requires Orm.StencilsValid(stencils) && Orm.WellFormed(inHand) && count > 0
    requires BuiltJob(rats, inHand.stencilArray, inHand.head, uuids(n), now, pageExp).Ok?
    ensures var job := BuiltJob(rats, inHand.stencilArray, inHand.head, uuids(n), now, pageExp).value;
      Replenish(rats, stencils, queue, inHand, count, n, uuids, now, pageExp) ==
      ReplenishMoved(rats, stencils, JQ.WithJob(queue, job), inHand, count, n, uuids, now, pageExp)
  {
  }

  /** `Replenish` at the loop's next counters, named as the loop names them. */
  lemma ReplenishNext(rats: seq<Orm.Rational>, stencils: seq<Orm.StencilRecord>, queue: seq<JQ.Entry>,
                      inHand: Orm.StencilRecord, count: int, n: nat, left: int, m: nat,
                      uuids: nat -> JQ.JobId, now: int, pageExp: nat)
    requires Orm.StencilsValid(stencils) && Orm.WellFormed(inHand)
    requires left == count - 1 && m == n + 1
    ensures Replenish(rats, stencils, queue, inHand, count - 1, n + 1, uuids, now, pageExp) ==
      Replenish(rats, stencils, queue, inHand, left, m, uuids, now, pageExp)
  {
  }

  /** Records the job built from `s` with the head it was built from, then moves the head. */
  method RecordAndMove(s: Orm.Stencil, jobId: JQ.JobId, pageExp: nat) returns (hs: Head.HeadState)
    requires Orm.WellFormed(s.Record())
    modifies s
    ensures s.Record() == Moved(old(s.Record()), jobId, pageExp)
    ensures hs == Head.NextHead(old(s.stencilArray), old(s.head), pageExp).1
  {
    s.openJobs := s.openJobs + [Orm.OpenJob(jobId, s.head)];
    hs := Head.MoveHead(s, pageExp);
  }

  /**
   * One pass of the `get_jobs` loop over the stencil `s` in hand: build a
   * job from it, record it and move the head; when the head runs out of
   * room, write the stencil as out of headroom and take the next open one,
   * or, with none left, write it back and stop. `done` says the loop ends
   * here; otherwise `next` is the stencil in hand for the next pass.
   */
  method BuildNext(db: Db, jq: JQ.Queue, s: Orm.Stencil, count: int, n: nat,
                   uuids: nat -> JQ.JobId, now: int, pageExp: nat, ghost target: Replenished)
    returns (done: bool, next: Orm.Stencil, left: int, m: nat)
    requires db.Valid() && jq.Valid() && Orm.WellFormed(s.Record()) && count > 0
    requires Replenish(db.rationals, db.stencils, jq.entries, s.Record(), count, n, uuids, now, pageExp) == target
    modifies db, jq, s
    ensures db.Valid() && jq.Valid()
    ensures db.rationals == old(db.rationals) && db.montesinos == old(db.montesinos)
    ensures next == s || fresh(next)
    ensures done ==> db.stencils == target.stencils && jq.entries == target.queue
    ensures left == count - 1 && m == n + 1
    ensures !done ==>
      Orm.WellFormed(next.Record()) &&
      Replenish(db.rationals, db.stencils, jq.entries, next.Record(), left, m, uuids, now, pageExp) == target
  {
    ghost var rec0 := s.Record();
    next, left, m := s, count - 1, n + 1;
    var built := BuildJob(jq, db.rationals, s.stencilArray, s.head, None, uuids(n), now, pageExp);
    if built.Err? {
      ReplenishFailed(db.rationals, db.stencils, old(jq.entries), rec0, count, n, uuids, now, pageExp);
      return true, next, left, m;
    }
    assert ChosenId(None, uuids(n)) == uuids(n);
    var hs := RecordAndMove(s, built.value, pageExp);
    if hs == Head.Headroom {
      ReplenishHeadroom(db.rationals, db.stencils, old(jq.entries), rec0, count, n, uuids, now, pageExp);
      ReplenishNext(db.rationals, db.stencils, jq.entries, s.Record(), count, n, left, m, uuids, now, pageExp);
      return false, next, left, m;
    }
    ReplenishNoHeadroom(db.rationals, db.stencils, old(jq.entries), rec0, count, n, uuids, now, pageExp);
    var found;
    found, next := SwitchStencil(db, s);
    if !found {
      return true, next, left, m;
    }
    ReplenishNext(db.rationals, db.stencils, jq.entries, next.Record(), count, n, left, m, uuids, now, pageExp);
    return false, next, left, m;
  }

  /**
   * The stencil in hand ran out of headroom: write it back as such and take
   * the next open stencil, marked started; with none left the loop breaks
   * and the stencil in hand is written back once more.
   */
  method SwitchStencil(db: Db, s: Orm.Stencil) returns (found: bool, next: Orm.Stencil)
    requires db.Valid() && Orm.WellFormed(s.Record())
    modifies db, s
    ensures db.Valid()
    ensures db.rationals == old(db.rationals) && db.montesinos == old(db.montesinos)
    ensures next == s || fresh(next)
    ensures var exhausted := old(s.Record()).(state := Orm.NoHeadroom);
      var stencils' := Orm.Replace(old(db.stencils), exhausted);
      var open := Orm.FindOpen(stencils');
      (found <==> open.Some?) &&
      (open.None? ==> db.stencils == Orm.Replace(stencils', exhausted)) &&
      (open.Some? ==> db.stencils == stencils' && next.Record() == stencils'[open.value].(state := Orm.Started))
  {
    next := s;
    s.state := Orm.NoHeadroom;
    db.stencils := Orm.Replace(db.stencils, s.Record());
    var open := Orm.FindOpen(db.stencils);
    if open.None? {
      db.stencils := Orm.Replace(db.stencils, s.Record());
      return false, next;
    }
    assert Orm.WellFormed(db.stencils[open.value]);
    next := new Orm.Stencil.FromRecord(db.stencils[open.value]);
    next.state := Orm.Started;
    return true, next;
  }

  /**
   * `get_jobs`: builds up to `count` jobs from the open stencils, recording
   * each on its stencil with the head it was built from and moving the
   * head; a stencil that runs out of headroom is written as such and the
   * next open stencil is taken. A failed build ends the call silently.
   */
  method GetJobs(db: Db, jq: JQ.Queue, count: int, uuids: nat -> JQ.JobId, now: int, pageExp: nat)
    requires db.Valid() && jq.Valid()
    modifies db, jq
    ensures db.Valid() && jq.Valid()
    ensures db.rationals == old(db.rationals) && db.montesinos == old(db.montesinos)
    ensures var r := GetJobsSpec(old(db.rationals), old(db.stencils), old(jq.entries), count, uuids, now, pageExp);
      db.stencils == r.stencils && jq.entries == r.queue
  {
    var found := Orm.FindOpen(db.stencils);
    if found.None? {
      return;
    }
    assert Orm.WellFormed(db.stencils[found.value]);
    var stencil := new Orm.Stencil.FromRecord(db.stencils[found.value]);
    stencil.state := Orm.Started;
    assert stencil.Record() == db.stencils[found.value].(state := Orm.Started);
    BuildAll(db, jq, stencil, count, uuids, now, pageExp,
             Replenish(db.rationals, db.stencils, jq.entries, stencil.Record(), count, 0, uuids, now, pageExp));
  }

  /** The `while count > 0` loop of `get_jobs`, from the first open stencil `stencil`. */
  method BuildAll(db: Db, jq: JQ.Queue, stencil: Orm.Stencil, count: int, uuids: nat -> JQ.JobId, now: int, pageExp: nat,
                  ghost target: Replenished)
    requires db.Valid() && jq.Valid() && Orm.WellFormed(stencil.Record())
    requires Replenish(db.rationals, db.stencils, jq.entries, stencil.Record(), count, 0, uuids, now, pageExp) == target
    modifies db, jq, stencil
    ensures db.Valid() && jq.Valid()
    ensures db.rationals == old(db.rationals) && db.montesinos == old(db.montesinos)
    ensures db.stencils == target.stencils && jq.entries == target.queue
  {
    var inHand := stencil;
    var c := count;
    var n: nat := 0;
    while c > 0
      invariant inHand == stencil || fresh(inHand)
      invariant db.Valid() && jq.Valid() && Orm.WellFormed(inHand.Record())
      invariant db.rationals == old(db.rationals) && db.montesinos == old(db.montesinos)
      invariant Replenish(db.rationals, db.stencils, jq.entries, inHand.Record(), c, n, uuids, now, pageExp) == target
      decreases c
    {
      var done;
      done, inHand, c, n := BuildNext(db, jq, inHand, c, n, uuids, now, pageExp, target);
      if done {
        return;
      }
    }
    ReplenishDone(db.rationals, db.stencils, jq.entries, inHand.Record(), c, n, uuids, now, pageExp);
    db.stencils := Orm.Replace(db.stencils, inHand.Record());
  }

  // ---------------------------------------------------------------------
  // What `get_jobs` does to the queue and to the stencil store.

  /** A queue entry as `get_jobs` enqueues it: a new, unleased Montesinos job. */
  predicate FreshMontesinos(e: JQ.Entry) {
    e.job.cls == JQ.MontesinosJob && e.job.curState == JQ.New && e.job.clientId.None?
  }

  /** The ids handed to the jobs numbered `lo` up to `hi`. */
  function IdsFrom(uuids: nat -> JQ.JobId, lo: nat, hi: nat): set<JQ.JobId> {
    set k | lo <= k < hi :: uuids(k)
  }

  lemma IdsFromStep(uuids: nat -> JQ.JobId, lo: nat, hi: nat)
    requires lo < hi
    ensures IdsFrom(uuids, lo, hi) == {uuids(lo)} + IdsFrom(uuids, lo + 1, hi)
  {
    assert uuids(lo) in IdsFrom(uuids, lo, hi);
  }

  /** Enqueueing a built job adds at most one entry, at the end: a new, unleased Montesinos job with the built id. */
  lemma EnqueueBuilt(rats: seq<Orm.Rational>, stencil: seq<int>, pages: seq<int>, jobId: JQ.JobId, now: int, pageExp: nat,
                     queue: seq<JQ.Entry>)
    requires BuiltJob(rats, stencil, pages, jobId, now, pageExp).Ok?
    ensures var q := JQ.WithJob(queue, BuiltJob(rats, stencil, pages, jobId, now, pageExp).value);
      queue <= q && |q| <= |queue| + 1 && JQ.Keys(q) == JQ.Keys(queue) + {jobId} &&
      forall i :: |queue| <= i < |q| ==> FreshMontesinos(q[i])
    ensures var q := JQ.WithJob(queue, BuiltJob(rats, stencil, pages, jobId, now, pageExp).value);
      JQ.StatesConsistent(queue) ==> JQ.StatesConsistent(q)
  {
    BuiltJobMeaning(rats, stencil, pages, jobId, now, pageExp);
    if JQ.StatesConsistent(queue) {
      JQ.WithJobConsistent(queue, BuiltJob(rats, stencil, pages, jobId, now, pageExp).value);
    }
  }

  /**
   * From any point of the loop: at most `count` more jobs are built; the
   * queue only grows at its end, by at most one new, unleased Montesinos
   * job per job built.
   */
  lemma {:induction false} ReplenishQueue(rats: seq<Orm.Rational>, stencils: seq<Orm.StencilRecord>, queue: seq<JQ.Entry>,
                                          inHand: Orm.StencilRecord, count: int, n: nat,
                                          uuids: nat -> JQ.JobId, now: int, pageExp: nat)
    requires Orm.StencilsValid(stencils) && Orm.WellFormed(inHand)
    ensures var r := Replenish(rats, stencils, queue, inHand, count, n, uuids, now, pageExp);
      n <= r.built <= n + Max0(count) &&
      queue <= r.queue && |r.queue| <= |queue| + (r.built - n) &&
      (forall i :: |queue| <= i < |r.queue| ==> FreshMontesinos(r.queue[i]))
    decreases Max0(count), 1
  {
    if count <= 0 {
      ReplenishDone(rats, stencils, queue, inHand, count, n, uuids, now, pageExp);
      assert IdsFrom(uuids, n, n) == {};
    } else if BuiltJob(rats, inHand.stencilArray, inHand.head, uuids(n), now, pageExp).Err? {
      ReplenishFailed(rats, stencils, queue, inHand, count, n, uuids, now, pageExp);
      assert IdsFrom(uuids, n, n) == {};
    } else {
      var job := BuiltJob(rats, inHand.stencilArray, inHand.head, uuids(n), now, pageExp).value;
      var queue' := JQ.WithJob(queue, job);
      EnqueueBuilt(rats, inHand.stencilArray, inHand.head, uuids(n), now, pageExp, queue);
      ReplenishBuilt(rats, stencils, queue, inHand, count, n, uuids, now, pageExp);
      ReplenishMovedQueue(rats, stencils, queue', inHand, count, n, uuids, now, pageExp);
      var r := ReplenishMoved(rats, stencils, queue', inHand, count, n, uuids, now, pageExp);
      assert forall i :: |queue| <= i < |queue'| ==> r.queue[i] == queue'[i];
    }
  }

  /** `ReplenishQueue` for the rest of a pass, the n-th job being already enqueued. */
  lemma {:induction false} ReplenishMovedQueue(rats: seq<Orm.Rational>, stencils: seq<Orm.StencilRecord>, queue: seq<JQ.Entry>,
                                               inHand: Orm.StencilRecord, count: int, n: nat,
                                               uuids: nat -> JQ.JobId, now: int, pageExp: nat)
    requires Orm.StencilsValid(stencils) && Orm.WellFormed(inHand) && count > 0
    ensures var r := ReplenishMoved(rats, stencils, queue, inHand, count, n, uuids, now, pageExp);
      n + 1 <= r.built <= n + Max0(count) &&
      queue <= r.queue && |r.queue| <= |queue| + (r.built - n - 1) &&
      (forall i :: |queue| <= i < |r.queue| ==> FreshMontesinos(r.queue[i]))
    decreases Max0(count), 0
  {
    var moved := Moved(inHand, uuids(n), pageExp);
    if Head.NextHead(inHand.stencilArray, inHand.head, pageExp).1 == Head.Headroom {
      ReplenishQueue(rats, stencils, queue, moved, count - 1, n + 1, uuids, now, pageExp);
    } else {
      var stencils' := Orm.Replace(stencils, moved.(state := Orm.NoHeadroom));
      match Orm.FindOpen(stencils')
      case None =>
      case Some(j) =>
        assert Orm.WellFormed(stencils'[j]);
        ReplenishQueue(rats, stencils', queue, stencils'[j].(state := Orm.Started), count - 1, n + 1, uuids, now, pageExp);
    }
  }

  /** The queue's ids grow by exactly the ids of the jobs built, `uuids(n)` onwards. */
  lemma {:induction false} ReplenishKeys(rats: seq<Orm.Rational>, stencils: seq<Orm.StencilRecord>, queue: seq<JQ.Entry>,
                                         inHand: Orm.StencilRecord, count: int, n: nat,
                                         uuids: nat -> JQ.JobId, now: int, pageExp: nat)
    requires Orm.StencilsValid(stencils) && Orm.WellFormed(inHand)
    ensures var r := Replenish(rats, stencils, queue, inHand, count, n, uuids, now, pageExp);
      JQ.Keys(r.queue) == JQ.Keys(queue) + IdsFrom(uuids, n, r.built)
    decreases Max0(count), 1
  {
    if count <= 0 {
      ReplenishDone(rats, stencils, queue, inHand, count, n, uuids, now, pageExp);
      assert IdsFrom(uuids, n, n) == {};
    } else if BuiltJob(rats, inHand.stencilArray, inHand.head, uuids(n), now, pageExp).Err? {
      ReplenishFailed(rats, stencils, queue, inHand, count, n, uuids, now, pageExp);
      assert IdsFrom(uuids, n, n) == {};
    } else {
      var job := BuiltJob(rats, inHand.stencilArray, inHand.head, uuids(n), now, pageExp).value;
      var queue' := JQ.WithJob(queue, job);
      EnqueueBuilt(rats, inHand.stencilArray, inHand.head, uuids(n), now, pageExp, queue);
      ReplenishBuilt(rats, stencils, queue, inHand, count, n, uuids, now, pageExp);
      ReplenishMovedKeys(rats, stencils, queue', inHand, count, n, uuids, now, pageExp);
      ReplenishMovedQueue(rats, stencils, queue', inHand, count, n, uuids, now, pageExp);
      IdsFromStep(uuids, n, ReplenishMoved(rats, stencils, queue', inHand, count, n, uuids, now, pageExp).built);
    }
  }

  /** `ReplenishKeys` for the rest of a pass, the n-th job being already enqueued. */
  lemma {:induction false} ReplenishMovedKeys(rats: seq<Orm.Rational>, stencils: seq<Orm.StencilRecord>, queue: seq<JQ.Entry>,
                                              inHand: Orm.StencilRecord, count: int, n: nat,
                                              uuids: nat -> JQ.JobId, now: int, pageExp: nat)
    requires Orm.StencilsValid(stencils) && Orm.WellFormed(inHand) && count > 0
    ensures var r := ReplenishMoved(rats, stencils, queue, inHand, count, n, uuids, now, pageExp);
      JQ.Keys(r.queue) == JQ.Keys(queue) + IdsFrom(uuids, n + 1, r.built)
    decreases Max0(count), 0
  {
    var r := ReplenishMoved(rats, stencils, queue, inHand, count, n, uuids, now, pageExp);
    var moved := Moved(inHand, uuids(n), pageExp);
    if Head.NextHead(inHand.stencilArray, inHand.head, pageExp).1 == Head.Headroom {
      assert r == Replenish(rats, stencils, queue, moved, count - 1, n + 1, uuids, now, pageExp);
      ReplenishKeys(rats, stencils, queue, moved, count - 1, n + 1, uuids, now, pageExp);
    } else {
      var stencils' := Orm.Replace(stencils, moved.(state := Orm.NoHeadroom));
      match Orm.FindOpen(stencils')
      case None =>
        assert r.queue == queue && r.built == n + 1;
        assert IdsFrom(uuids, n + 1, n + 1) == {};
      case Some(j) =>
        assert Orm.WellFormed(stencils'[j]);
        assert r == Replenish(rats, stencils', queue, stencils'[j].(state := Orm.Started), count - 1, n + 1, uuids, now, pageExp);
        ReplenishKeys(rats, stencils', queue, stencils'[j].(state := Orm.Started), count - 1, n + 1, uuids, now, pageExp);
    }
  }

  /**
   * Unless a build failed, the loop builds fewer jobs than asked for only
   * when no open stencil is left in the store.
   */
  lemma {:induction false} ReplenishShort(rats: seq<Orm.Rational>, stencils: seq<Orm.StencilRecord>, queue: seq<JQ.Entry>,
                                          inHand: Orm.StencilRecord, count: int, n: nat,
                                          uuids: nat -> JQ.JobId, now: int, pageExp: nat)
    requires Orm.StencilsValid(stencils) && Orm.WellFormed(inHand)
    ensures var r := Replenish(rats, stencils, queue, inHand, count, n, uuids, now, pageExp);
      !r.failed && r.built < n + Max0(count) ==> Orm.FindOpen(r.stencils).None?
    decreases Max0(count), 1
  {
    if count <= 0 {
      ReplenishDone(rats, stencils, queue, inHand, count, n, uuids, now, pageExp);
    } else if BuiltJob(rats, inHand.stencilArray, inHand.head, uuids(n), now, pageExp).Err? {
      ReplenishFailed(rats, stencils, queue, inHand, count, n, uuids, now, pageExp);
    } else {
      var job := BuiltJob(rats, inHand.stencilArray, inHand.head, uuids(n), now, pageExp).value;
      ReplenishBuilt(rats, stencils, queue, inHand, count, n, uuids, now, pageExp);
      ReplenishMovedShort(rats, stencils, JQ.WithJob(queue, job), inHand, count, n, uuids, now, pageExp);
    }
  }

  /** `ReplenishShort` for the rest of a pass, the n-th job being already enqueued. */
  lemma {:induction false} ReplenishMovedShort(rats: seq<Orm.Rational>, stencils: seq<Orm.StencilRecord>, queue: seq<JQ.Entry>,
                                               inHand: Orm.StencilRecord, count: int, n: nat,
                                               uuids: nat -> JQ.JobId, now: int, pageExp: nat)
    requires Orm.StencilsValid(stencils) && Orm.WellFormed(inHand) && count > 0
    ensures var r := ReplenishMoved(rats, stencils, queue, inHand, count, n, uuids, now, pageExp);
      !r.failed && r.built < n + Max0(count) ==> Orm.FindOpen(r.stencils).None?
    decreases Max0(count), 0
  {
    var moved := Moved(inHand, uuids(n), pageExp);
    if Head.NextHead(inHand.stencilArray, inHand.head, pageExp).1 == Head.Headroom {
      ReplenishShort(rats, stencils, queue, moved, count - 1, n + 1, uuids, now, pageExp);
    } else {
      var exhausted := moved.(state := Orm.NoHeadroom);
      var stencils' := Orm.Replace(stencils, exhausted);
      match Orm.FindOpen(stencils')
      case None =>
        var last := Orm.Replace(stencils', exhausted);
        assert forall j :: 0 <= j < |last| ==> !Orm.IsOpen(last[j].state);
      case Some(j) =>
        assert Orm.WellFormed(stencils'[j]);
        ReplenishShort(rats, stencils', queue, stencils'[j].(state := Orm.Started), count - 1, n + 1, uuids, now, pageExp);
    }
  }

  /**
   * What `get_jobs` may do to one stored stencil: keep its id and its
   * stencil array, only add open jobs, and change it at all only if it was
   * open, leaving it started or out of headroom.
   */
  predicate Evolved(before: Orm.StencilRecord, after: Orm.StencilRecord) {
    after.id == before.id && after.stencilArray == before.stencilArray &&
    before.openJobs <= after.openJobs &&
    (after != before ==> Orm.IsOpen(before.state) && (after.state == Orm.Started || after.state == Orm.NoHeadroom))
  }

  /** Inside the loop: every stencil written so far was written out of headroom. */
  ghost predicate WrittenExhausted(orig: seq<Orm.StencilRecord>, stencils: seq<Orm.StencilRecord>) {
    |stencils| == |orig| &&
    forall j :: 0 <= j < |orig| ==>
      Evolved(orig[j], stencils[j]) && (stencils[j] != orig[j] ==> stencils[j].state == Orm.NoHeadroom)
  }

  /** The stencil in hand is marked started and evolved from the stored stencil with its id. */
  ghost predicate InHandFrom(orig: seq<Orm.StencilRecord>, inHand: Orm.StencilRecord) {
    inHand.state == Orm.Started &&
    forall j :: 0 <= j < |orig| && orig[j].id == inHand.id ==> Evolved(orig[j], inHand)
  }

  lemma PrefixExtend<T>(a: seq<T>, b: seq<T>, c: seq<T>)
    requires a <= b
    ensures a <= b + c
  {
    assert (b + c)[..|a|] == b[..|a|];
  }

  /**
   * From any point of the loop, starting from the store `orig`: every
   * stencil of the final store evolved from the stored one at the same
   * place.
   */
  lemma {:induction false} ReplenishEvolves(rats: seq<Orm.Rational>, orig: seq<Orm.StencilRecord>,
                                            stencils: seq<Orm.StencilRecord>, queue: seq<JQ.Entry>,
                                            inHand: Orm.StencilRecord, count: int, n: nat,
                                            uuids: nat -> JQ.JobId, now: int, pageExp: nat)
    requires Orm.StencilsValid(stencils) && Orm.WellFormed(inHand)
    requires WrittenExhausted(orig, stencils) && InHandFrom(orig, inHand)
    ensures var r := Replenish(rats, stencils, queue, inHand, count, n, uuids, now, pageExp);
      |r.stencils| == |orig| && forall j :: 0 <= j < |orig| ==> Evolved(orig[j], r.stencils[j])
    decreases Max0(count), 1
  {
    if count <= 0 {
      ReplenishDone(rats, stencils, queue, inHand, count, n, uuids, now, pageExp);
      var last := Orm.Replace(stencils, inHand);
      forall j | 0 <= j < |orig| ensures Evolved(orig[j], last[j]) {
        if stencils[j].id == inHand.id {
          assert last[j] == inHand;
        }
      }
    } else if BuiltJob(rats, inHand.stencilArray, inHand.head, uuids(n), now, pageExp).Err? {
      ReplenishFailed(rats, stencils, queue, inHand, count, n, uuids, now, pageExp);
    } else {
      var job := BuiltJob(rats, inHand.stencilArray, inHand.head, uuids(n), now, pageExp).value;
      ReplenishBuilt(rats, stencils, queue, inHand, count, n, uuids, now, pageExp);
      ReplenishMovedEvolves(rats, orig, stencils, JQ.WithJob(queue, job), inHand, count, n, uuids, now, pageExp);
    }
  }

  /** `ReplenishEvolves` for the rest of a pass, the n-th job being already enqueued. */
  lemma {:induction false} ReplenishMovedEvolves(rats: seq<Orm.Rational>, orig: seq<Orm.StencilRecord>,
                                                 stencils: seq<Orm.StencilRecord>, queue: seq<JQ.Entry>,
                                                 inHand: Orm.StencilRecord, count: int, n: nat,
                                                 uuids: nat -> JQ.JobId, now: int, pageExp: nat)
    requires Orm.StencilsValid(stencils) && Orm.WellFormed(inHand) && count > 0
    requires WrittenExhausted(orig, stencils) && InHandFrom(orig, inHand)
    ensures var r := ReplenishMoved(rats, stencils, queue, inHand, count, n, uuids, now, pageExp);
      |r.stencils| == |orig| && forall j :: 0 <= j < |orig| ==> Evolved(orig[j], r.stencils[j])
    decreases Max0(count), 0
  {
    var moved := Moved(inHand, uuids(n), pageExp);
    forall j | 0 <= j < |orig| && orig[j].id == moved.id ensures Evolved(orig[j], moved) {
      PrefixExtend(orig[j].openJobs, inHand.openJobs, [Orm.OpenJob(uuids(n), inHand.head)]);
    }
    if Head.NextHead(inHand.stencilArray, inHand.head, pageExp).1 == Head.Headroom {
      ReplenishEvolves(rats, orig, stencils, queue, moved, count - 1, n + 1, uuids, now, pageExp);
    } else {
      var exhausted := moved.(state := Orm.NoHeadroom);
      var stencils' := Orm.Replace(stencils, exhausted);
      ExhaustedWritten(orig, stencils, exhausted);
      match Orm.FindOpen(stencils')
      case None =>
        ExhaustedWritten(orig, stencils', exhausted);
      case Some(j') =>
        assert Orm.WellFormed(stencils'[j']);
        var next := stencils'[j'].(state := Orm.Started);
        forall j | 0 <= j < |orig| && orig[j].id == next.id ensures Evolved(orig[j], next) {
          Orm.IdsDistinctAt(stencils', j, j');
        }
        ReplenishEvolves(rats, orig, stencils', queue, next, count - 1, n + 1, uuids, now, pageExp);
    }
  }

  /** Writing the stencil in hand back out of headroom keeps the loop's invariant on the store. */
  lemma ExhaustedWritten(orig: seq<Orm.StencilRecord>, stencils: seq<Orm.StencilRecord>, exhausted: Orm.StencilRecord)
    requires Orm.StencilsValid(stencils) && WrittenExhausted(orig, stencils)
    requires exhausted.state == Orm.NoHeadroom
    requires forall j :: 0 <= j < |orig| && orig[j].id == exhausted.id ==> Evolved(orig[j], exhausted.(state := Orm.Started))
    ensures WrittenExhausted(orig, Orm.Replace(stencils, exhausted))
  {
    var r := Orm.Replace(stencils, exhausted);
    forall j | 0 <= j < |orig|
      ensures Evolved(orig[j], r[j]) && (r[j] != orig[j] ==> r[j].state == Orm.NoHeadroom)
    {
      if stencils[j].id == exhausted.id {
        assert r[j] == exhausted;
        assert Evolved(orig[j], exhausted.(state := Orm.Started));
      }
    }
  }

  /**
   * `get_jobs(count)` builds at most `count` jobs. The queue only grows, at
   * its end, by new, unleased Montesinos jobs, at most one per job built,
   * and its ids grow by exactly the ids handed out. Unless a build failed,
   * fewer jobs than asked for are built only when no open stencil is left;
   * with no open stencil at all nothing changes.
   */
  lemma GetJobsQueue(rats: seq<Orm.Rational>, stencils: seq<Orm.StencilRecord>, queue: seq<JQ.Entry>,
                     count: int, uuids: nat -> JQ.JobId, now: int, pageExp: nat)
    requires Orm.StencilsValid(stencils)
    ensures var r := GetJobsSpec(rats, stencils, queue, count, uuids, now, pageExp);
      r.built <= Max0(count) &&
      queue <= r.queue && |r.queue| - |queue| <= r.built &&
      (forall i :: |queue| <= i < |r.queue| ==> FreshMontesinos(r.queue[i])) &&
      JQ.Keys(r.queue) == JQ.Keys(queue) + IdsFrom(uuids, 0, r.built) &&
      (!r.failed && r.built < Max0(count) ==> Orm.FindOpen(r.stencils).None?) &&
      (Orm.FindOpen(stencils).None? ==> r == Replenished(stencils, queue, 0, false))
  {
    match Orm.FindOpen(stencils)
    case None =>
      assert IdsFrom(uuids, 0, 0) == {};
    case Some(j) =>
      assert Orm.WellFormed(stencils[j]);
      var inHand := stencils[j].(state := Orm.Started);
      ReplenishQueue(rats, stencils, queue, inHand, count, 0, uuids, now, pageExp);
      ReplenishKeys(rats, stencils, queue, inHand, count, 0, uuids, now, pageExp);
      ReplenishShort(rats, stencils, queue, inHand, count, 0, uuids, now, pageExp);
  }

  /**
   * `get_jobs` touches only open stencils, leaving each started or out of
   * headroom with its id and stencil array and with open jobs only added;
   * a complete or exhausted stencil is left as it was, so every settled
   * stencil stays settled.
   */
  lemma GetJobsStore(rats: seq<Orm.Rational>, stencils: seq<Orm.StencilRecord>, queue: seq<JQ.Entry>,
                     count: int, uuids: nat -> JQ.JobId, now: int, pageExp: nat)
    requires Orm.StencilsValid(stencils)
    ensures var r := GetJobsSpec(rats, stencils, queue, count, uuids, now, pageExp);
      |r.stencils| == |stencils| &&
      (forall j :: 0 <= j < |stencils| ==> Evolved(stencils[j], r.stencils[j])) &&
      (forall j :: 0 <= j < |stencils| && !Orm.IsOpen(stencils[j].state) ==> r.stencils[j] == stencils[j]) &&
      (forall j :: 0 <= j < |stencils| && Settled(stencils[j]) ==> Settled(r.stencils[j]))
  {
    match Orm.FindOpen(stencils)
    case None =>
    case Some(j0) =>
      assert Orm.WellFormed(stencils[j0]);
      var inHand := stencils[j0].(state := Orm.Started);
      forall j | 0 <= j < |stencils| && stencils[j].id == inHand.id ensures Evolved(stencils[j], inHand) {
        Orm.IdsDistinctAt(stencils, j, j0);
      }
      ReplenishEvolves(rats, stencils, stencils, queue, inHand, count, 0, uuids, now, pageExp);
  }

  /**
   * Startup's top-up: when fewer than `minNewCount` new Montesinos jobs are
   * queued, `get_jobs` is asked for the shortfall.
   */
  function TopUp(queue: seq<JQ.Entry>, minNewCount: int): Option<int> {
    var numNew := JQ.JobStatistics(queue, JQ.MontesinosJob).numNew;
    if numNew < minNewCount then Some(minNewCount - numNew) else None
  }

  /**
   * A top-up is asked for exactly when the new Montesinos jobs fall short,
   * for a positive number of jobs; every job it enqueues is counted as new,
   * and it never takes the count past `minNewCount`.
   */
  lemma TopUpNeverOvershoots(rats: seq<Orm.Rational>, stencils: seq<Orm.StencilRecord>, queue: seq<JQ.Entry>,
                             minNewCount: int, uuids: nat -> JQ.JobId, now: int, pageExp: nat)
    requires Orm.StencilsValid(stencils)
    ensures var numNew := JQ.JobStatistics(queue, JQ.MontesinosJob).numNew;
      (TopUp(queue, minNewCount).Some? <==> numNew < minNewCount) &&
      (TopUp(queue, minNewCount).Some? ==>
         TopUp(queue, minNewCount).value > 0 &&
         var r := GetJobsSpec(rats, stencils, queue, TopUp(queue, minNewCount).value, uuids, now, pageExp);
         var after := JQ.JobStatistics(r.queue, JQ.MontesinosJob).numNew;
         after == numNew + (|r.queue| - |queue|) && after <= minNewCount)
  {
    var numNew := JQ.JobStatistics(queue, JQ.MontesinosJob).numNew;
    if numNew < minNewCount {
      var want := minNewCount - numNew;
      GetJobsQueue(rats, stencils, queue, want, uuids, now, pageExp);
      var r := GetJobsSpec(rats, stencils, queue, want, uuids, now, pageExp);
      var added := r.queue[|queue|..];
      assert r.queue == queue + added;
      var isNew := JQ.OfClassIn(JQ.MontesinosJob, JQ.New);
      assert forall i :: 0 <= i < |added| ==> isNew(added[i]) by {
        forall i | 0 <= i < |added| ensures isNew(added[i]) {
          assert FreshMontesinos(r.queue[|queue| + i]);
        }
      }
      JQ.CountAll(added, isNew);
      JQ.CountAppend(queue, added, isNew);
    }
  }
}
