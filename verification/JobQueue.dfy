/**
 * The recognition work queue: enqueuing, the fair claim, finishing and requeuing
 * (api/db/recognition.go). No row is locked by another worker while a claim runs.
 */
module JobQueue {
  import opened Prelude

  datatype Status = Pending | Processing | Finished | Failed | Skipped

  datatype Job = Job(user: Id, collection: Id, file: Id, status: Status, attempts: nat,
                     createdAt: Time, updatedAt: Time)

  type Jobs = map<Id, Job>

  function PendingJobs(jobs: Jobs): set<Id> { set j | j in jobs && jobs[j].status.Pending? }

  function PendingOf(jobs: Jobs, user: Id): set<Id> {
    set j | j in jobs && jobs[j].status.Pending? && jobs[j].user == user
  }

  /** ORDER BY created_at, id. */
  predicate NotAfter(jobs: Jobs, i: Id, j: Id)
    requires i in jobs && j in jobs
  {
    jobs[i].createdAt < jobs[j].createdAt || (jobs[i].createdAt == jobs[j].createdAt && i <= j)
  }

  /** The user's pending jobs up to and including j. */
  function UpTo(jobs: Jobs, j: Id): set<Id>
    requires j in jobs
  {
    set i | i in jobs && i in PendingOf(jobs, jobs[j].user) && NotAfter(jobs, i, j)
  }

  /** ROW_NUMBER() OVER (PARTITION BY user_id ORDER BY created_at, id). */
  function RowNumber(jobs: Jobs, j: Id): nat
    requires j in jobs
  {
    |UpTo(jobs, j)|
  }

  /** ORDER BY rn, id. */
  predicate ClaimedBefore(jobs: Jobs, i: Id, j: Id)
    requires i in jobs && j in jobs
  {
    RowNumber(jobs, i) < RowNumber(jobs, j) || (RowNumber(jobs, i) == RowNumber(jobs, j) && i < j)
  }

  /** The first `limit` pending jobs in claim order. */
  ghost predicate IsClaim(jobs: Jobs, limit: nat, claim: set<Id>) {
    var pending := PendingJobs(jobs);
    && claim <= pending
    && |claim| == (if limit < |pending| then limit else |pending|)
    && forall c <- claim, p <- pending - claim :: ClaimedBefore(jobs, c, p)
  }

  /** The place of a pending job in its user's queue, oldest first. */
  lemma RowNumberIsPlace(jobs: Jobs, j: Id)
    requires j in jobs
    ensures RowNumber(jobs, j) ==
      |set i | i in jobs && jobs[i].status.Pending? && jobs[i].user == jobs[j].user
               && (jobs[i].createdAt < jobs[j].createdAt || (jobs[i].createdAt == jobs[j].createdAt && i <= j))|
  {
    assert UpTo(jobs, j) ==
           set i | i in jobs && jobs[i].status.Pending? && jobs[i].user == jobs[j].user
                   && (jobs[i].createdAt < jobs[j].createdAt || (jobs[i].createdAt == jobs[j].createdAt && i <= j));
  }

  /** Every pending job, or as many as the limit allows: the lowest places first, and of one place the lowest ids. */
  lemma ClaimIsFirst(jobs: Jobs, limit: nat, claim: set<Id>)
    requires IsClaim(jobs, limit, claim)
    ensures var pending := set j | j in jobs && jobs[j].status.Pending?;
      && claim <= pending && |claim| <= limit && (|claim| < limit ==> claim == pending)
      && forall c <- claim, p <- pending - claim ::
           RowNumber(jobs, c) < RowNumber(jobs, p) || (RowNumber(jobs, c) == RowNumber(jobs, p) && c < p)
  {
    var pending := PendingJobs(jobs);
    if |claim| == |pending| { SameSizeSubset(claim, pending); }
    CardinalityMonotone(claim, pending);
    assert pending == set j | j in jobs && jobs[j].status.Pending?;
  }

  /** There is one claim. */
  lemma ClaimIsUnique(jobs: Jobs, limit: nat, claim: set<Id>, other: set<Id>)
    requires IsClaim(jobs, limit, claim) && IsClaim(jobs, limit, other)
    ensures claim == other
  {
    assert forall c <- claim, o <- other ::
        c in other || o in claim || (ClaimedBefore(jobs, c, o) && ClaimedBefore(jobs, o, c));
    if claim <= other {
      SameSizeSubset(claim, other);
    } else {
      SameSizeSubset(other, claim);
    }
  }

  lemma SameSizeSubset(small: set<Id>, large: set<Id>)
    requires small <= large && |small| == |large|
    ensures small == large
  {
    assert large == small + (large - small) && |large| == |small| + |large - small|;
  }

  lemma FirstExists(jobs: Jobs, ids: set<Id>) returns (first: Id)
    requires ids != {} && ids <= jobs.Keys
    ensures first in ids && forall j <- ids :: j != first ==> ClaimedBefore(jobs, first, j)
    decreases |ids|
  {
    var some :| some in ids;
    first := some;
    var others := ids - {some};
    assert forall j <- ids :: j == some || j in others;
    if others != {} {
      var rest := FirstExists(jobs, others);
      first := if ClaimedBefore(jobs, some, rest) then some else rest;
    }
  }

  /** Extending a claim by the first of the jobs it leaves. */
  lemma LongerClaim(jobs: Jobs, taken: set<Id>, next: Id)
    requires taken <= PendingJobs(jobs) && next in PendingJobs(jobs) - taken
    requires forall c <- taken, p <- PendingJobs(jobs) - taken :: ClaimedBefore(jobs, c, p)
    requires forall p <- PendingJobs(jobs) - taken :: p != next ==> ClaimedBefore(jobs, next, p)
    ensures forall c <- taken + {next}, p <- PendingJobs(jobs) - (taken + {next}) :: ClaimedBefore(jobs, c, p)
  {
  }

  class Queue {
    var jobs: Jobs
    var now: Time

    constructor (jobs: Jobs, now: Time)
      ensures this.jobs == jobs && this.now == now
    {
      this.jobs, this.now := jobs, now;
    }

    /** The subquery of the claim. */
    method SelectClaim(limit: nat) returns (claim: set<Id>)
      ensures IsClaim(jobs, limit, claim)
    {
      var pending := PendingJobs(jobs);
      claim := {};
      while |claim| < limit && claim != pending
        invariant claim <= pending && |claim| <= limit
        invariant forall c <- claim, p <- pending - claim :: ClaimedBefore(jobs, c, p)
        decreases |pending - claim|
      {
        var left := pending - claim;
        assert left != {};
        ghost var first := FirstExists(jobs, left);
        var next :| next in left && forall j <- left :: j != next ==> ClaimedBefore(jobs, next, j);
        LongerClaim(jobs, claim, next);
        assert pending - (claim + {next}) == left - {next};
        claim := claim + {next};
      }
      assert pending == claim + (pending - claim);
    }

    method ClaimRecognitionJobs(limit: nat) returns (claim: set<Id>)
      modifies this
      ensures IsClaim(old(jobs), limit, claim)
      ensures jobs == Claimed(old(jobs), claim, now) && now == old(now)
      ensures jobs.Keys == old(jobs).Keys && forall j <- jobs | j !in claim :: jobs[j] == old(jobs)[j]
      ensures forall j <- claim ::
          && j in jobs
          && jobs[j] == old(jobs)[j].(status := Processing, attempts := old(jobs)[j].attempts + 1, updatedAt := now)
    {
      claim := SelectClaim(limit);
      jobs := map j | j in jobs ::
        if j in claim then jobs[j].(status := Processing, attempts := jobs[j].attempts + 1, updatedAt := now)
        else jobs[j];
    }

    /** Passing Pending requeues the job. */
    method FinishRecognitionJob(j: Id, status: Status)
      modifies this
      ensures now == old(now)
      ensures jobs == if j in old(jobs) then old(jobs)[j := old(jobs)[j].(status := status, updatedAt := now)]
                      else old(jobs)
    {
      if j in jobs {
        jobs := jobs[j := jobs[j].(status := status, updatedAt := now)];
      }
    }

    method ResetStaleRecognitionJobs(olderThan: nat) returns (requeued: nat)
      modifies this
      ensures now == old(now) && jobs.Keys == old(jobs).Keys
      ensures forall j <- jobs :: jobs[j] == Requeued(old(jobs)[j], now, olderThan)
      ensures forall j <- jobs | old(jobs)[j].status.Processing? && olderThan < now - old(jobs)[j].updatedAt ::
          jobs[j] == old(jobs)[j].(status := Pending, updatedAt := now)
      ensures forall j <- jobs | !(old(jobs)[j].status.Processing? && olderThan < now - old(jobs)[j].updatedAt) ::
          jobs[j] == old(jobs)[j]
      ensures requeued == |set j | j in old(jobs) && Stale(old(jobs)[j], now, olderThan)|
    {
      requeued := |set j | j in jobs && Stale(jobs[j], now, olderThan)|;
      jobs := map j | j in jobs :: Requeued(jobs[j], now, olderThan);
    }

    /** INSERT … ON CONFLICT (collection_id, file_id) DO NOTHING. */
    method InsertIfAbsent(job: Job) returns (added: nat)
      requires OneJobPerFile(jobs)
      modifies this`jobs
      ensures AddsIfAbsent(old(jobs), jobs, job) && OneJobPerFile(jobs)
      ensures added == |jobs.Keys - old(jobs).Keys| && (added == 0 ==> jobs == old(jobs))
    {
      added := 0;
      if !HasJob(jobs, job.collection, job.file) {
        var id := NewId(jobs.Keys);
        InsertKeepsOneJob(jobs, id, job);
        assert jobs[id := job].Keys - jobs.Keys == {id};
        jobs := jobs[id := job];
        added := 1;
        assert AddsIfAbsent(old(jobs), jobs, job) by { assert id in jobs; }
      }
    }

    /** Files that already have a job in the collection keep it; every other file gets one. */
    method UpsertRecognitionJobs(user: Id, collection: Id, files: seq<Id>) returns (inserted: nat)
      requires OneJobPerFile(jobs)
      modifies this`jobs
      ensures Upserted(old(jobs), jobs, user, collection, files, now)
      ensures inserted == |jobs.Keys - old(jobs).Keys|
    {
      ghost var before := jobs;
      inserted := 0;
      for i := 0 to |files|
        invariant Upserted(before, jobs, user, collection, files[..i], now)
        invariant inserted == |jobs.Keys - before.Keys|
      {
        ghost var was := jobs;
        var job := Job(user, collection, files[i], Pending, 0, now, now);
        var added := InsertIfAbsent(job);
        CountNew(before.Keys, was.Keys, jobs.Keys);
        UpsertStep(before, was, jobs, job, files[..i]);
        TakeOneMore(files, i);
        inserted := inserted + added;
      }
      TakeAll(files);
    }
  }

  lemma TakeOneMore(files: seq<Id>, i: nat)
    requires i < |files|
    ensures files[..i + 1] == files[..i] + [files[i]]
  {
  }

  lemma TakeAll(files: seq<Id>)
    ensures files[..|files|] == files
  {
  }

  function Claimed(jobs: Jobs, claim: set<Id>, now: Time): Jobs {
    map j | j in jobs ::
      if j in claim then jobs[j].(status := Processing, attempts := jobs[j].attempts + 1, updatedAt := now)
      else jobs[j]
  }

  predicate Stale(job: Job, now: Time, olderThan: nat) {
    job.status.Processing? && job.updatedAt < now - olderThan
  }

  function Requeued(job: Job, now: Time, olderThan: nat): Job {
    if Stale(job, now, olderThan) then job.(status := Pending, updatedAt := now) else job
  }

  predicate HasJob(jobs: Jobs, collection: Id, file: Id) {
    exists j <- jobs :: jobs[j].collection == collection && jobs[j].file == file
  }

  /** The unique constraint on (collection_id, file_id). */
  ghost predicate OneJobPerFile(jobs: Jobs) {
    forall i <- jobs, j <- jobs :: jobs[i].collection == jobs[j].collection && jobs[i].file == jobs[j].file ==> i == j
  }

  /** Adding a job for a file that has none. */
  lemma InsertKeepsOneJob(jobs: Jobs, id: Id, job: Job)
    requires OneJobPerFile(jobs) && id !in jobs && !HasJob(jobs, job.collection, job.file)
    ensures OneJobPerFile(jobs[id := job])
  {
  }

  /** The table afterwards: unchanged if the file has a job, else with one more row. */
  ghost predicate AddsIfAbsent(jobs: Jobs, jobs': Jobs, job: Job) {
    if HasJob(jobs, job.collection, job.file) then jobs' == jobs
    else exists id | id in jobs' :: id !in jobs && jobs' == jobs[id := job]
  }

  /** Every job not in `before` is a new pending job for a requested file that had none. */
  ghost predicate OnlyNew(before: Jobs, jobs: Jobs, user: Id, collection: Id, files: seq<Id>, now: Time) {
    && (forall j <- before :: j in jobs && jobs[j] == before[j])
    && forall j <- jobs :: j !in before ==>
         && jobs[j] == Job(user, collection, jobs[j].file, Pending, 0, now, now)
         && jobs[j].file in files && !HasJob(before, collection, jobs[j].file)
  }

  /** The requested files all have a job, and nothing else changed. */
  ghost predicate Upserted(before: Jobs, jobs: Jobs, user: Id, collection: Id, files: seq<Id>, now: Time) {
    && OneJobPerFile(jobs) && OnlyNew(before, jobs, user, collection, files, now)
    && forall f <- files :: HasJob(jobs, collection, f)
  }

  /** Each file has a job in the collection; old jobs stay; a new one is pending, for a listed file that had none. */
  lemma UpsertedJobs(before: Jobs, jobs: Jobs, user: Id, collection: Id, files: seq<Id>, now: Time)
    requires Upserted(before, jobs, user, collection, files, now)
    ensures forall f <- files :: exists j <- jobs :: jobs[j].collection == collection && jobs[j].file == f
    ensures forall j <- before :: j in jobs && jobs[j] == before[j]
    ensures forall j <- jobs | j !in before ::
      && jobs[j] == Job(user, collection, jobs[j].file, Pending, 0, now, now) && jobs[j].file in files
      && forall i <- before :: !(before[i].collection == collection && before[i].file == jobs[j].file)
  {
    assert forall f <- files :: HasJob(jobs, collection, f);
  }

  lemma UpsertStep(before: Jobs, jobs: Jobs, jobs': Jobs, job: Job, files: seq<Id>)
    requires job == Job(job.user, job.collection, job.file, Pending, 0, job.createdAt, job.createdAt)
    requires Upserted(before, jobs, job.user, job.collection, files, job.createdAt)
    requires AddsIfAbsent(jobs, jobs', job) && OneJobPerFile(jobs')
    ensures Upserted(before, jobs', job.user, job.collection, files + [job.file], job.createdAt)
  {
    OnlyNewStep(before, jobs, jobs', job, files);
    AllHaveJobsStep(jobs, jobs', job, files);
  }

  lemma CountNew(before: set<Id>, jobs: set<Id>, jobs': set<Id>)
    requires before <= jobs <= jobs'
    ensures |jobs' - before| == |jobs - before| + |jobs' - jobs|
  {
  }

  lemma AllHaveJobsStep(jobs: Jobs, jobs': Jobs, job: Job, files: seq<Id>)
    requires forall f <- files :: HasJob(jobs, job.collection, f)
    requires AddsIfAbsent(jobs, jobs', job)
    ensures forall f <- files + [job.file] :: HasJob(jobs', job.collection, f)
  {
    AddLeavesJobs(jobs, jobs', job);
  }

  lemma AddLeavesJobs(jobs: Jobs, jobs': Jobs, job: Job)
    requires AddsIfAbsent(jobs, jobs', job)
    ensures HasJob(jobs', job.collection, job.file)
    ensures forall f: Id | HasJob(jobs, job.collection, f) :: HasJob(jobs', job.collection, f)
  {
    if !HasJob(jobs, job.collection, job.file) {
      var id: Id :| id in jobs' && id !in jobs && jobs' == jobs[id := job];
      assert jobs'[id] == job;
      forall f: Id | HasJob(jobs, job.collection, f) ensures HasJob(jobs', job.collection, f) {
        var j: Id :| j in jobs && jobs[j].collection == job.collection && jobs[j].file == f;
        assert jobs'[j] == jobs[j];
      }
    }
  }

  lemma OnlyNewStep(before: Jobs, jobs: Jobs, jobs': Jobs, job: Job, files: seq<Id>)
    requires job == Job(job.user, job.collection, job.file, Pending, 0, job.createdAt, job.createdAt)
    requires OnlyNew(before, jobs, job.user, job.collection, files, job.createdAt)
    requires AddsIfAbsent(jobs, jobs', job)
    ensures OnlyNew(before, jobs', job.user, job.collection, files + [job.file], job.createdAt)
  {
    assert forall f: Id :: f in files ==> f in files + [job.file];
    if !HasJob(jobs, job.collection, job.file) {
      var id: Id :| id in jobs' && id !in jobs && jobs' == jobs[id := job];
      assert forall j <- jobs' :: j == id || (j in jobs && jobs'[j] == jobs[j]);
      assert job.file in files + [job.file];
      assert !HasJob(before, job.collection, job.file);
    }
  }

  // ── Fairness of one claim ──────────────────────────────────────────────────

  lemma EarlierHasSmallerRow(jobs: Jobs, i: Id, j: Id)
    requires j in jobs && i in UpTo(jobs, j) && i != j && j in PendingJobs(jobs)
    ensures RowNumber(jobs, i) < RowNumber(jobs, j)
  {
    assert UpTo(jobs, i) <= UpTo(jobs, j) - {j};
    CardinalityMonotone(UpTo(jobs, i), UpTo(jobs, j) - {j});
  }

  lemma CardinalityMonotone(small: set<Id>, large: set<Id>)
    requires small <= large
    ensures |small| <= |large|
  {
    assert large == small + (large - small);
  }

  /** Each user's claimed jobs are a prefix of that user's own queue: an older one of theirs is claimed too. */
  lemma ClaimTakesPrefixes(jobs: Jobs, limit: nat, claim: set<Id>, i: Id, j: Id)
    requires IsClaim(jobs, limit, claim) && j in claim && i in jobs && j in jobs
    requires jobs[i].status.Pending? && jobs[i].user == jobs[j].user
    requires jobs[i].createdAt < jobs[j].createdAt || (jobs[i].createdAt == jobs[j].createdAt && i <= j)
    ensures i in claim
  {
    ClaimTakesUpTo(jobs, limit, claim, j);
    assert i in UpTo(jobs, j);
  }

  lemma ClaimTakesUpTo(jobs: Jobs, limit: nat, claim: set<Id>, j: Id)
    requires IsClaim(jobs, limit, claim) && j in claim
    ensures UpTo(jobs, j) <= claim
  {
    forall i <- UpTo(jobs, j) ensures i in claim {
      if i != j {
        EarlierHasSmallerRow(jobs, i, j);
        assert i in PendingJobs(jobs) && !ClaimedBefore(jobs, j, i);
      }
    }
  }

  lemma ExtremeExists(jobs: Jobs, ids: set<Id>, last: bool) returns (j: Id)
    requires ids != {} && ids <= jobs.Keys
    ensures j in ids && forall i <- ids :: if last then NotAfter(jobs, i, j) else NotAfter(jobs, j, i)
    decreases |ids|
  {
    var some :| some in ids;
    j := some;
    var others := ids - {some};
    assert forall i <- ids :: i == some || i in others;
    if others != {} {
      var rest := ExtremeExists(jobs, others, last);
      j := if NotAfter(jobs, some, rest) == last then rest else some;
    }
  }

  /** The number of a user's claimed jobs is the row number of the last of them. */
  lemma LastClaimedRow(jobs: Jobs, limit: nat, claim: set<Id>, user: Id) returns (last: Id)
    requires IsClaim(jobs, limit, claim) && claim * PendingOf(jobs, user) != {}
    ensures last in claim && last in PendingOf(jobs, user)
    ensures RowNumber(jobs, last) == |claim * PendingOf(jobs, user)|
  {
    var mine := claim * PendingOf(jobs, user);
    last := ExtremeExists(jobs, mine, true);
    ClaimTakesUpTo(jobs, limit, claim, last);
    assert UpTo(jobs, last) == mine;
  }

  /** A user's first unclaimed job comes right after the claimed ones. */
  lemma FirstUnclaimedRow(jobs: Jobs, limit: nat, claim: set<Id>, user: Id) returns (first: Id)
    requires IsClaim(jobs, limit, claim) && PendingOf(jobs, user) - claim != {}
    ensures first in PendingOf(jobs, user) - claim
    ensures RowNumber(jobs, first) <= |claim * PendingOf(jobs, user)| + 1
  {
    var mine := claim * PendingOf(jobs, user);
    first := ExtremeExists(jobs, PendingOf(jobs, user) - claim, false);
    forall i <- UpTo(jobs, first) ensures i in mine + {first} {
      if i !in claim { assert NotAfter(jobs, first, i); }
    }
    CardinalityMonotone(UpTo(jobs, first), mine + {first});
  }

  /** While a user still waits, no other user was served more than one job more. */
  lemma ClaimIsFair(jobs: Jobs, limit: nat, claim: set<Id>, j: Id, other: Id)
    requires IsClaim(jobs, limit, claim) && j in jobs && jobs[j].status.Pending? && j !in claim
    ensures |set c | c in claim && c in jobs && jobs[c].user == other|
         <= |set c | c in claim && c in jobs && jobs[c].user == jobs[j].user| + 1
  {
    assert j in PendingOf(jobs, jobs[j].user) - claim;
    FairShares(jobs, limit, claim, jobs[j].user, other);
    ServedOf(jobs, limit, claim, other);
    ServedOf(jobs, limit, claim, jobs[j].user);
  }

  lemma ServedOf(jobs: Jobs, limit: nat, claim: set<Id>, user: Id)
    requires IsClaim(jobs, limit, claim)
    ensures claim * PendingOf(jobs, user) == set c | c in claim && c in jobs && jobs[c].user == user
  {
    assert forall c <- claim :: c in PendingJobs(jobs);
  }

  lemma FairShares(jobs: Jobs, limit: nat, claim: set<Id>, waiting: Id, other: Id)
    requires IsClaim(jobs, limit, claim) && PendingOf(jobs, waiting) - claim != {}
    ensures |claim * PendingOf(jobs, other)| <= |claim * PendingOf(jobs, waiting)| + 1
  {
    if claim * PendingOf(jobs, other) != {} {
      var first := FirstUnclaimedRow(jobs, limit, claim, waiting);
      var last := LastClaimedRow(jobs, limit, claim, other);
      assert ClaimedBefore(jobs, last, first);
    }
  }

  function WaitingUsers(jobs: Jobs): set<Id> { set j | j in jobs && jobs[j].status.Pending? :: jobs[j].user }

  /** With room for one job each, every waiting user is served. */
  lemma EveryUserIsServed(jobs: Jobs, limit: nat, claim: set<Id>, j: Id)
    requires IsClaim(jobs, limit, claim) && j in jobs && jobs[j].status.Pending?
    requires |set i | i in jobs && jobs[i].status.Pending? :: jobs[i].user| <= limit
    ensures exists c <- claim :: c in jobs && jobs[c].user == jobs[j].user
  {
    assert jobs[j].user in WaitingUsers(jobs);
    assert WaitingUsers(jobs) == set i | i in jobs && jobs[i].status.Pending? :: jobs[i].user;
    EveryoneIsServed(jobs, limit, claim, jobs[j].user);
    var c :| c in claim * PendingOf(jobs, jobs[j].user);
  }

  lemma EveryoneIsServed(jobs: Jobs, limit: nat, claim: set<Id>, user: Id)
    requires IsClaim(jobs, limit, claim) && user in WaitingUsers(jobs) && |WaitingUsers(jobs)| <= limit
    ensures claim * PendingOf(jobs, user) != {}
  {
    if claim * PendingOf(jobs, user) == {} {
      var j: Id :| j in jobs && jobs[j].status.Pending? && jobs[j].user == user;
      assert j in PendingOf(jobs, user) && j !in claim * PendingOf(jobs, user);
      assert forall a <- claim :: jobs[a].user in WaitingUsers(jobs) - {user} by {
        assert forall a <- claim :: a in PendingOf(jobs, user) ==> a in claim * PendingOf(jobs, user);
      }
      forall a <- claim, b <- claim | jobs[a].user == jobs[b].user ensures a == b {
        var both := claim * PendingOf(jobs, jobs[a].user);
        FairShares(jobs, limit, claim, user, jobs[a].user);
        if a != b { CardinalityMonotone({a, b}, both); }
      }
      DistinctUsers(jobs, claim, WaitingUsers(jobs) - {user});
      var pending := PendingJobs(jobs);
      assert claim <= pending - {j};
      CardinalityMonotone(claim, pending - {j});
      assert false;
    }
  }

  lemma {:induction false} DistinctUsers(jobs: Jobs, claim: set<Id>, users: set<Id>)
    requires claim <= jobs.Keys && forall a <- claim :: jobs[a].user in users
    requires forall a <- claim, b <- claim | jobs[a].user == jobs[b].user :: a == b
    ensures |claim| <= |users|
    decreases |claim|
  {
    if claim != {} {
      var a :| a in claim;
      DistinctUsers(jobs, claim - {a}, users - {jobs[a].user});
    }
  }
}
