/** Progress counters of batch jobs, kept up to date item by item. */
module BatchCounts {
  import opened Basics
  import opened Wrappers

  type Id = nat

  datatype JobStatus = Created | Submitted | InProgress | JobCompleted | JobFailed | Cancelled | Expired

  datatype ItemStatus = Queued | Sent | Completed | Failed

  datatype Job = Job(status: JobStatus, requestCount: nat, successCount: int, errorCount: int, completedAt: Option<int>)

  datatype Item = Item(jobId: Id, status: ItemStatus)

  /** The items of a job that have a given status. */
  function WithStatus(items: map<Id, Item>, jobId: Id, status: ItemStatus): set<Id> {
    set i | i in items && items[i].jobId == jobId && items[i].status == status
  }

  function ItemsOf(items: map<Id, Item>, jobId: Id): set<Id> {
    set i | i in items && items[i].jobId == jobId
  }

  predicate Done(s: ItemStatus) {
    s.Completed? || s.Failed?
  }

  ghost predicate AllDone(items: map<Id, Item>, jobId: Id) {
    forall i | i in ItemsOf(items, jobId) :: Done(items[i].status)
  }

  /** A job's counters say how many of its items are completed and how many failed. */
  ghost predicate Agrees(items: map<Id, Item>, jobId: Id, job: Job) {
    && job.successCount == |WithStatus(items, jobId, Completed)|
    && job.errorCount == |WithStatus(items, jobId, Failed)|
  }

  /** The request count is the number of items: so it is after one creation of items, but not after a second. */
  ghost predicate Sized(items: map<Id, Item>, jobId: Id, job: Job) {
    job.requestCount == |ItemsOf(items, jobId)|
  }

  function DoneItems(items: map<Id, Item>, jobId: Id): set<Id> {
    set i | i in ItemsOf(items, jobId) && Done(items[i].status)
  }

  lemma DoneOfBothKinds(items: map<Id, Item>, jobId: Id)
    ensures |DoneItems(items, jobId)| == |WithStatus(items, jobId, Completed)| + |WithStatus(items, jobId, Failed)|
  {
    var completed, failed := WithStatus(items, jobId, Completed), WithStatus(items, jobId, Failed);
    assert completed !! failed;
    assert DoneItems(items, jobId) == completed + failed;
  }

  /** The completion test on the counters is the test on the items. */
  lemma CountersReachRequestsIffAllDone(items: map<Id, Item>, jobId: Id, job: Job)
    requires Agrees(items, jobId, job) && Sized(items, jobId, job)
    ensures job.successCount + job.errorCount <= job.requestCount
    ensures job.successCount + job.errorCount >= job.requestCount <==> AllDone(items, jobId)
  {
    DoneOfBothKinds(items, jobId);
    SubsetSize(DoneItems(items, jobId), ItemsOf(items, jobId));
    assert AllDone(items, jobId) <==> DoneItems(items, jobId) == ItemsOf(items, jobId);
  }

  /** It is the right test, whichever items are done, for no other request count. */
  lemma CompletionTestIsRightIff(all: set<Id>, requestCount: nat)
    requires all != {}
    ensures (forall done | done <= all :: |done| >= requestCount <==> done == all) <==> requestCount == |all|
  {
    if requestCount == |all| {
      forall done | done <= all ensures |done| >= requestCount <==> done == all {
        SubsetSize(done, all);
      }
    } else {
      var x :| x in all;
      var most := all - {x};
      assert most <= all && |most| == |all| - 1 && most != all;
      assert all <= all;
    }
  }

  function Delta(from: ItemStatus, to: ItemStatus, counted: ItemStatus): int {
    (if to == counted then 1 else 0) - (if from == counted then 1 else 0)
  }

  lemma SizeWithout(s: set<Id>, x: Id)
    ensures |s| == |s - {x}| + if x in s then 1 else 0
  {
    if x in s {
      assert s == (s - {x}) + {x};
    } else {
      assert s == s - {x};
    }
  }

  lemma OthersKeepStatus(items: map<Id, Item>, id: Id, to: ItemStatus, jobId: Id, counted: ItemStatus)
    requires id in items
    ensures WithStatus(items[id := items[id].(status := to)], jobId, counted) - {id} ==
            WithStatus(items, jobId, counted) - {id}
  {
  }

  lemma CountAfterChange(items: map<Id, Item>, id: Id, to: ItemStatus, jobId: Id, counted: ItemStatus)
    requires id in items
    ensures var later := items[id := items[id].(status := to)];
      |WithStatus(later, jobId, counted)| ==
      |WithStatus(items, jobId, counted)| + if items[id].jobId == jobId then Delta(items[id].status, to, counted) else 0
  {
    var later := items[id := items[id].(status := to)];
    SizeWithout(WithStatus(items, jobId, counted), id);
    SizeWithout(WithStatus(later, jobId, counted), id);
    OthersKeepStatus(items, id, to, jobId, counted);
  }

  /** `_update_job_counts_from_item_status_change`: the job after one item went from one status to another. */
  function JobAfter(job: Job, from: ItemStatus, to: ItemStatus, now: int): Job {
    var successDelta, errorDelta := Delta(from, to, Completed), Delta(from, to, Failed);
    if successDelta == 0 && errorDelta == 0 then job
    else
      var counted := job.(successCount := job.successCount + successDelta, errorCount := job.errorCount + errorDelta);
      if counted.successCount + counted.errorCount >= counted.requestCount then
        counted.(status := JobCompleted, completedAt := Some(now))
      else counted
  }

  /** The change moves an item into, out of or between the counted statuses. */
  predicate ChangesCounts(from: ItemStatus, to: ItemStatus) {
    from != to && (Done(from) || Done(to))
  }

  lemma AgreesAfter(items: map<Id, Item>, id: Id, to: ItemStatus, jobId: Id, job: Job, now: int)
    requires id in items && Agrees(items, jobId, job)
    ensures var later := items[id := items[id].(status := to)];
      var after := if items[id].jobId == jobId then JobAfter(job, items[id].status, to, now) else job;
      Agrees(later, jobId, after) && (Sized(items, jobId, job) <==> Sized(later, jobId, after))
  {
    var later := items[id := items[id].(status := to)];
    CountAfterChange(items, id, to, jobId, Completed);
    CountAfterChange(items, id, to, jobId, Failed);
    assert ItemsOf(later, jobId) == ItemsOf(items, jobId);
  }

  /** A job is marked completed exactly at a count-changing update that leaves all its items done. */
  lemma CompletedExactlyWhenAllDone(items: map<Id, Item>, id: Id, to: ItemStatus, job: Job, now: int)
    requires id in items && Agrees(items, items[id].jobId, job) && Sized(items, items[id].jobId, job)
    ensures var later, after := items[id := items[id].(status := to)], JobAfter(job, items[id].status, to, now);
      if ChangesCounts(items[id].status, to) && AllDone(later, items[id].jobId)
      then after.status == JobCompleted && after.completedAt == Some(now)
      else after.status == job.status && after.completedAt == job.completedAt
  {
    var later := items[id := items[id].(status := to)];
    AgreesAfter(items, id, to, items[id].jobId, job, now);
    CountersReachRequestsIffAllDone(later, items[id].jobId, JobAfter(job, items[id].status, to, now));
  }

  // ---------- Runs of updates ----------

  /** One item's new status, and the time at which it is applied. */
  datatype Update = Update(itemId: Id, status: ItemStatus, time: int)

  function Apply(items: map<Id, Item>, u: Update): map<Id, Item> {
    if u.itemId in items then items[u.itemId := items[u.itemId].(status := u.status)] else items
  }

  function ItemsAfter(items: map<Id, Item>, updates: seq<Update>): map<Id, Item> {
    if updates == [] then items else Apply(ItemsAfter(items, updates[..|updates| - 1]), updates[|updates| - 1])
  }

  predicate IsFor(items: map<Id, Item>, jobId: Id, u: Update) {
    u.itemId in items && items[u.itemId].jobId == jobId
  }

  function JobStep(items: map<Id, Item>, jobId: Id, job: Job, u: Update): Job {
    if IsFor(items, jobId, u) then JobAfter(job, items[u.itemId].status, u.status, u.time) else job
  }

  function JobAfterRun(items: map<Id, Item>, jobId: Id, job: Job, updates: seq<Update>): Job {
    if updates == [] then job
    else
      var init := updates[..|updates| - 1];
      JobStep(ItemsAfter(items, init), jobId, JobAfterRun(items, jobId, job, init), updates[|updates| - 1])
  }

  /** The update changes the job's counts and leaves as many items done as there were requests. */
  ghost predicate Completes(items: map<Id, Item>, jobId: Id, requests: nat, u: Update) {
    && IsFor(items, jobId, u) && ChangesCounts(items[u.itemId].status, u.status)
    && |DoneItems(Apply(items, u), jobId)| >= requests
  }

  /** The update changes the job's counts and leaves all its items done. */
  ghost predicate LeavesAllDone(items: map<Id, Item>, jobId: Id, u: Update) {
    IsFor(items, jobId, u) && ChangesCounts(items[u.itemId].status, u.status) && AllDone(Apply(items, u), jobId)
  }

  ghost predicate CompletesAt(items: map<Id, Item>, jobId: Id, requests: nat, updates: seq<Update>, n: nat) {
    n < |updates| && Completes(ItemsAfter(items, updates[..n]), jobId, requests, updates[n])
  }

  /** Update `n` is the last one to complete the job. */
  ghost predicate CompletesLastAt(items: map<Id, Item>, jobId: Id, requests: nat, updates: seq<Update>, n: nat) {
    CompletesAt(items, jobId, requests, updates, n) && forall m: nat | n < m :: !CompletesAt(items, jobId, requests, updates, m)
  }

  /** For a job whose items were created at once, both are the same. */
  lemma CompletesWhenSized(items: map<Id, Item>, jobId: Id, job: Job, u: Update)
    requires Sized(items, jobId, job)
    ensures Completes(items, jobId, job.requestCount, u) <==> LeavesAllDone(items, jobId, u)
  {
    var later := Apply(items, u);
    assert ItemsOf(later, jobId) == ItemsOf(items, jobId);
    SubsetSize(DoneItems(later, jobId), ItemsOf(later, jobId));
    assert AllDone(later, jobId) <==> DoneItems(later, jobId) == ItemsOf(later, jobId);
  }

  /** So is any update of a run. */
  lemma CompletesAtWhenSized(items: map<Id, Item>, jobId: Id, job: Job, updates: seq<Update>, n: nat)
    requires Sized(items, jobId, job)
    ensures CompletesAt(items, jobId, job.requestCount, updates, n) <==>
            n < |updates| && LeavesAllDone(ItemsAfter(items, updates[..n]), jobId, updates[n])
  {
    if n < |updates| {
      SameItemsAfterRun(items, jobId, updates[..n]);
      CompletesWhenSized(ItemsAfter(items, updates[..n]), jobId, job, updates[n]);
    }
  }

  lemma {:induction false} SameItemsAfterRun(items: map<Id, Item>, jobId: Id, updates: seq<Update>)
    ensures ItemsOf(ItemsAfter(items, updates), jobId) == ItemsOf(items, jobId)
  {
    if updates != [] {
      SameItemsAfterRun(items, jobId, updates[..|updates| - 1]);
    }
  }

  ghost predicate AllDoneAt(items: map<Id, Item>, jobId: Id, updates: seq<Update>, n: nat) {
    n <= |updates| && AllDone(ItemsAfter(items, updates[..n]), jobId)
  }

  lemma {:induction false} AgreesAfterRun(items: map<Id, Item>, jobId: Id, job: Job, updates: seq<Update>)
    requires Agrees(items, jobId, job)
    ensures var later, after := ItemsAfter(items, updates), JobAfterRun(items, jobId, job, updates);
      && Agrees(later, jobId, after) && after.requestCount == job.requestCount
      && (Sized(items, jobId, job) <==> Sized(later, jobId, after))
  {
    if updates != [] {
      var init, u := updates[..|updates| - 1], updates[|updates| - 1];
      AgreesAfterRun(items, jobId, job, init);
      var before := ItemsAfter(items, init);
      if u.itemId in before {
        AgreesAfter(before, u.itemId, u.status, jobId, JobAfterRun(items, jobId, job, init), u.time);
      }
    }
  }

  /** The mark over one update. */
  lemma MarkAfterStep(items: map<Id, Item>, jobId: Id, job: Job, u: Update)
    requires Agrees(items, jobId, job)
    ensures var after := JobStep(items, jobId, job, u);
      if Completes(items, jobId, job.requestCount, u) then after.status == JobCompleted && after.completedAt == Some(u.time)
      else after.status == job.status && after.completedAt == job.completedAt
  {
    if IsFor(items, jobId, u) {
      AgreesAfter(items, u.itemId, u.status, jobId, job, u.time);
      DoneOfBothKinds(Apply(items, u), jobId);
    }
  }

  /** Leaving out the last update changes nothing before it. */
  lemma CompletesAtInit(items: map<Id, Item>, jobId: Id, requests: nat, updates: seq<Update>, n: nat)
    requires updates != []
    ensures CompletesAt(items, jobId, requests, updates[..|updates| - 1], n) <==>
            n != |updates| - 1 && CompletesAt(items, jobId, requests, updates, n)
    ensures CompletesAt(items, jobId, requests, updates, n) ==> n < |updates|
  {
    if n + 1 < |updates| {
      assert updates[..|updates| - 1][..n] == updates[..n];
    }
  }

  /**
   * After a run, the job is completed if and only if it was before or some update completed it. Its
   * completion time is that of the last such update, if there is one.
   */
  ghost predicate MarkFollows(items: map<Id, Item>, jobId: Id, before: Job, after: Job, updates: seq<Update>) {
    var requests := before.requestCount;
    if exists n: nat :: CompletesAt(items, jobId, requests, updates, n)
    then after.status == JobCompleted
         && exists n: nat :: CompletesLastAt(items, jobId, requests, updates, n) && after.completedAt == Some(updates[n].time)
    else after.status == before.status && after.completedAt == before.completedAt
  }

  lemma {:induction false} MarkAfterRun(items: map<Id, Item>, jobId: Id, job: Job, updates: seq<Update>)
    requires Agrees(items, jobId, job)
    ensures MarkFollows(items, jobId, job, JobAfterRun(items, jobId, job, updates), updates)
  {
    if updates != [] {
      var last := |updates| - 1;
      var init, u := updates[..last], updates[last];
      MarkAfterRun(items, jobId, job, init);
      AgreesAfterRun(items, jobId, job, init);
      MarkAfterStep(ItemsAfter(items, init), jobId, JobAfterRun(items, jobId, job, init), u);
      MarkFollowsOneMore(items, jobId, job, JobAfterRun(items, jobId, job, init), JobAfterRun(items, jobId, job, updates), updates);
    }
  }

  lemma MarkFollowsOneMore(items: map<Id, Item>, jobId: Id, before: Job, mid: Job, after: Job, updates: seq<Update>)
    requires updates != [] && MarkFollows(items, jobId, before, mid, updates[..|updates| - 1])
    requires var last, requests := |updates| - 1, before.requestCount;
      if CompletesAt(items, jobId, requests, updates, last)
      then after.status == JobCompleted && after.completedAt == Some(updates[last].time)
      else after.status == mid.status && after.completedAt == mid.completedAt
    ensures MarkFollows(items, jobId, before, after, updates)
  {
    var last, requests := |updates| - 1, before.requestCount;
    var init := updates[..last];
    forall n: nat
      ensures CompletesAt(items, jobId, requests, init, n) <==> n != last && CompletesAt(items, jobId, requests, updates, n)
      ensures CompletesAt(items, jobId, requests, updates, n) ==> n <= last
    {
      CompletesAtInit(items, jobId, requests, updates, n);
    }
    hide CompletesAt;
    if CompletesAt(items, jobId, requests, updates, last) {
      assert CompletesLastAt(items, jobId, requests, updates, last);
    } else if exists n: nat :: CompletesAt(items, jobId, requests, updates, n) {
      var k: nat :| CompletesAt(items, jobId, requests, updates, k);
      assert CompletesAt(items, jobId, requests, init, k);
      var n: nat :| CompletesLastAt(items, jobId, requests, init, n) && mid.completedAt == Some(init[n].time);
      assert CompletesLastAt(items, jobId, requests, updates, n);
    } else {
      assert forall n: nat :: CompletesAt(items, jobId, requests, init, n) ==> CompletesAt(items, jobId, requests, updates, n);
    }
  }

  /** The mark is not taken back, whatever happens to the items. */
  lemma {:induction false} CompletionIsNotRevoked(items: map<Id, Item>, jobId: Id, job: Job, updates: seq<Update>)
    requires job.status == JobCompleted
    ensures JobAfterRun(items, jobId, job, updates).status == JobCompleted
  {
    if updates != [] {
      CompletionIsNotRevoked(items, jobId, job, updates[..|updates| - 1]);
    }
  }

  /** All the job's items are done only if it is marked. */
  ghost predicate MarkedWhenDone(items: map<Id, Item>, jobId: Id, job: Job) {
    Sized(items, jobId, job) && ItemsOf(items, jobId) != {} && AllDone(items, jobId) ==> job.status == JobCompleted
  }

  lemma MarkedWhenDoneAfterStep(items: map<Id, Item>, jobId: Id, job: Job, u: Update)
    requires Agrees(items, jobId, job) && MarkedWhenDone(items, jobId, job)
    ensures MarkedWhenDone(Apply(items, u), jobId, JobStep(items, jobId, job, u))
  {
    var later := Apply(items, u);
    assert ItemsOf(later, jobId) == ItemsOf(items, jobId);
    if Sized(items, jobId, job) {
      MarkAfterStep(items, jobId, job, u);
      CompletesWhenSized(items, jobId, job, u);
      if AllDone(later, jobId) && !LeavesAllDone(items, jobId, u) {
        DoneBefore(items, jobId, u);
      }
    }
  }

  /** Only a completing update takes a job from not all done to all done. */
  lemma DoneBefore(items: map<Id, Item>, jobId: Id, u: Update)
    requires AllDone(Apply(items, u), jobId) && !LeavesAllDone(items, jobId, u)
    ensures AllDone(items, jobId)
  {
    var later := Apply(items, u);
    forall i | i in ItemsOf(items, jobId) ensures Done(items[i].status) {
      assert i in ItemsOf(later, jobId) && Done(later[i].status);
    }
  }

  lemma {:induction false} MarkedWhenDoneAfterRun(items: map<Id, Item>, jobId: Id, job: Job, updates: seq<Update>)
    requires Agrees(items, jobId, job) && MarkedWhenDone(items, jobId, job)
    ensures MarkedWhenDone(ItemsAfter(items, updates), jobId, JobAfterRun(items, jobId, job, updates))
  {
    if updates != [] {
      var init := updates[..|updates| - 1];
      MarkedWhenDoneAfterRun(items, jobId, job, init);
      AgreesAfterRun(items, jobId, job, init);
      MarkedWhenDoneAfterStep(ItemsAfter(items, init), jobId, JobAfterRun(items, jobId, job, init), updates[|updates| - 1]);
    }
  }

  /** The mark says that all items were done at some point of the run. */
  lemma {:induction false} MarkedIffEverAllDone(items: map<Id, Item>, jobId: Id, job: Job, updates: seq<Update>)
    requires Agrees(items, jobId, job) && Sized(items, jobId, job)
    requires job.status == JobCompleted <==> AllDone(items, jobId)
    ensures JobAfterRun(items, jobId, job, updates).status == JobCompleted <==>
            exists n: nat :: AllDoneAt(items, jobId, updates, n)
  {
    var last := |updates|;
    assert updates[..last] == updates;
    if updates == [] {
      assert AllDoneAt(items, jobId, updates, 0) <==> AllDone(items, jobId);
    } else {
      var init, u := updates[..last - 1], updates[last - 1];
      MarkedIffEverAllDone(items, jobId, job, init);
      AgreesAfterRun(items, jobId, job, init);
      MarkAfterStep(ItemsAfter(items, init), jobId, JobAfterRun(items, jobId, job, init), u);
      CompletesWhenSized(ItemsAfter(items, init), jobId, JobAfterRun(items, jobId, job, init), u);
      forall n: nat | n < last ensures AllDoneAt(items, jobId, init, n) == AllDoneAt(items, jobId, updates, n) {
        assert init[..n] == updates[..n];
      }
      if AllDoneAt(items, jobId, updates, last) && !LeavesAllDone(ItemsAfter(items, init), jobId, u) {
        DoneBefore(ItemsAfter(items, init), jobId, u);
        assert init[..last - 1] == init;
        assert AllDoneAt(items, jobId, updates, last - 1);
      }
    }
  }

  /** Update `n` takes an item of the job out of the done ones while all were done. */
  ghost predicate ReopensAt(items: map<Id, Item>, jobId: Id, updates: seq<Update>, n: nat) {
    && n < |updates| && AllDoneAt(items, jobId, updates, n)
    && IsFor(ItemsAfter(items, updates[..n]), jobId, updates[n]) && !Done(updates[n].status)
  }

  /** The job was reopened and its items were never all done again. */
  ghost predicate LeftOpenAt(items: map<Id, Item>, jobId: Id, updates: seq<Update>, n: nat) {
    ReopensAt(items, jobId, updates, n) && forall m: nat | n < m :: !AllDoneAt(items, jobId, updates, m)
  }

  /** So after the run the mark says what the items are if and only if the job was not left reopened. */
  lemma MarkAgreesIffNotLeftOpen(items: map<Id, Item>, jobId: Id, job: Job, updates: seq<Update>)
    requires Agrees(items, jobId, job) && Sized(items, jobId, job)
    requires job.status == JobCompleted <==> AllDone(items, jobId)
    ensures (JobAfterRun(items, jobId, job, updates).status == JobCompleted <==> AllDone(ItemsAfter(items, updates), jobId))
            <==> forall n: nat :: !LeftOpenAt(items, jobId, updates, n)
  {
    MarkedIffEverAllDone(items, jobId, job, updates);
    var last := |updates|;
    assert updates[..last] == updates;
    assert AllDoneAt(items, jobId, updates, last) <==> AllDone(ItemsAfter(items, updates), jobId);
    if !AllDoneAt(items, jobId, updates, last) {
      if n: nat :| AllDoneAt(items, jobId, updates, n) {
        var k := LastAllDone(items, jobId, updates, n, last);
        NotDoneAfter(items, jobId, updates, k);
        assert LeftOpenAt(items, jobId, updates, k);
      }
    }
  }

  /** The last point at which all items were done. */
  lemma LastAllDone(items: map<Id, Item>, jobId: Id, updates: seq<Update>, n: nat, end: nat) returns (k: nat)
    requires AllDoneAt(items, jobId, updates, n) && n < end
    requires forall m: nat | end <= m :: !AllDoneAt(items, jobId, updates, m)
    ensures k < end && AllDoneAt(items, jobId, updates, k) && forall m: nat | k < m :: !AllDoneAt(items, jobId, updates, m)
    decreases end
  {
    if AllDoneAt(items, jobId, updates, end - 1) {
      k := end - 1;
    } else {
      k := LastAllDone(items, jobId, updates, n, end - 1);
    }
  }

  lemma NotDoneAfter(items: map<Id, Item>, jobId: Id, updates: seq<Update>, k: nat)
    requires k < |updates| && AllDoneAt(items, jobId, updates, k) && !AllDoneAt(items, jobId, updates, k + 1)
    ensures ReopensAt(items, jobId, updates, k)
  {
    var before := ItemsAfter(items, updates[..k]);
    assert updates[..k + 1][..k] == updates[..k];
    var later := Apply(before, updates[k]);
    var i :| i in ItemsOf(later, jobId) && !Done(later[i].status);
    assert i in ItemsOf(before, jobId) && Done(before[i].status);
  }

  /** A completed job whose only item is queued again: the mark stays, the count and the items say otherwise. */
  lemma QueuedAgainStaysMarked(item: Id, jobId: Id)
    ensures var items, job := map[item := Item(jobId, Completed)], Job(JobCompleted, 1, 1, 0, Some(5));
      var updates := [Update(item, Queued, 6)];
      && Agrees(items, jobId, job) && Sized(items, jobId, job) && AllDone(items, jobId)
      && JobAfterRun(items, jobId, job, updates) == Job(JobCompleted, 1, 0, 0, Some(5))
      && !AllDone(ItemsAfter(items, updates), jobId)
  {
    var items, job := map[item := Item(jobId, Completed)], Job(JobCompleted, 1, 1, 0, Some(5));
    var u := Update(item, Queued, 6);
    assert WithStatus(items, jobId, Completed) == {item} == ItemsOf(items, jobId) && WithStatus(items, jobId, Failed) == {};
    assert [u][..0] == [];
    assert ItemsAfter(items, [u]) == Apply(ItemsAfter(items, []), u);
    assert JobAfterRun(items, jobId, job, [u]) == JobStep(items, jobId, JobAfterRun(items, jobId, job, []), u);
    assert item in ItemsOf(Apply(items, u), jobId);
  }

  // ---------- The service ----------

  /** Every item belongs to a job, the counters agree with the items, and done jobs are marked. */
  ghost predicate AllAgree(items: map<Id, Item>, jobs: map<Id, Job>) {
    && (forall i | i in items :: items[i].jobId in jobs)
    && forall j | j in jobs :: Agrees(items, j, jobs[j]) && MarkedWhenDone(items, j, jobs[j])
  }

  function NewItems(jobId: Id, ids: seq<Id>): map<Id, Item> {
    map i | i in ids :: Item(jobId, Queued)
  }

  class BatchService {
    var jobs: map<Id, Job>
    var items: map<Id, Item>

    ghost predicate Valid()
      reads this
    {
      AllAgree(items, jobs)
    }

    constructor ()
      ensures Valid() && jobs == map[] && items == map[]
    {
      jobs, items := map[], map[];
    }

    method CreateBatchJob(jobId: Id, requestCount: nat)
      requires Valid() && jobId !in jobs
      modifies this`jobs
      ensures Valid() && jobs == old(jobs)[jobId := Job(Created, requestCount, 0, 0, None)]
    {
      NoItems(items, jobId, requestCount);
      jobs := jobs[jobId := Job(Created, requestCount, 0, 0, None)];
    }

    /** `ids` are the identifiers that the database gives the new items, in order. */
    method CreateBatchItems(jobId: Id, ids: seq<Id>) returns (created: Result<seq<Id>>)
      requires Valid()
      requires (forall i | i in ids :: i !in items) && NoDuplicates(ids)
      modifies this
      ensures Valid()
      ensures created == if jobId in old(jobs) then Ok(ids) else Raised
      ensures created == Raised ==> jobs == old(jobs) && items == old(items)
      ensures created.Ok? ==>
        && jobs == old(jobs)[jobId := old(jobs)[jobId].(requestCount := |ids|)]
        && items == old(items) + NewItems(jobId, ids)
        && (Sized(items, jobId, jobs[jobId]) <==> ItemsOf(old(items), jobId) == {})
        && items.Keys == old(items.Keys) + IdSet(ids)
        && forall i | i in items :: items[i] == if i in ids then Item(jobId, Queued) else old(items)[i]
    {
      if jobId !in jobs {
        return Raised;
      }
      for n := 0 to |ids|
        invariant items == old(items) + NewItems(jobId, ids[..n]) && jobs == old(jobs)
      {
        OneMoreItem(old(items), jobId, ids, n);
        items := items[ids[n] := Item(jobId, Queued)];
      }
      assert ids[..|ids|] == ids;
      jobs := jobs[jobId := jobs[jobId].(requestCount := |ids|)];
      AllAgreeAfterCreation(old(items), old(jobs), jobId, ids);
      SizedAfterCreation(old(items), old(jobs)[jobId], jobId, ids);
      return Ok(ids);
    }

    /** `status` is `None` when the update does not set it. */
    method UpdateBatchItem(itemId: Id, status: Option<ItemStatus>, now: int) returns (updated: Option<Id>)
      requires Valid()
      modifies this
      ensures Valid()
      ensures updated == if itemId in old(items) then Some(itemId) else None
      ensures status.None? ==> jobs == old(jobs) && items == old(items)
      ensures itemId !in old(items) ==> jobs == old(jobs) && items == old(items)
      ensures itemId in old(items) && status.Some? ==>
        var jobId := old(items)[itemId].jobId;
        && items == old(items)[itemId := Item(jobId, status.value)]
        && jobs.Keys == old(jobs.Keys) && jobId in jobs && jobs[jobId].requestCount == old(jobs)[jobId].requestCount
        && forall j | j in jobs && j != jobId :: jobs[j] == old(jobs)[j]
      ensures status.Some? ==> items == Apply(old(items), Update(itemId, status.value, now))
      ensures status.Some? ==> JobsStep(old(items), old(jobs), jobs, Update(itemId, status.value, now))
    {
      if itemId !in items {
        return None;
      }
      var item := items[itemId];
      if status.Some? {
        ghost var before := items;
        items := items[itemId := item.(status := status.value)];
        if status.value != item.status {
          UpdateJobCountsFromItemStatusChange(item.jobId, item.status, status.value, now);
        }
        StepKeepsAgreement(before, old(jobs), Update(itemId, status.value, now), jobs);
      }
      return Some(itemId);
    }

    method UpdateJobCountsFromItemStatusChange(jobId: Id, oldStatus: ItemStatus, newStatus: ItemStatus, now: int)
      requires jobId in jobs && oldStatus != newStatus
      modifies this`jobs
      ensures jobs == old(jobs)[jobId := JobAfter(old(jobs)[jobId], oldStatus, newStatus, now)]
    {
      var successDelta, errorDelta := 0, 0;
      if oldStatus == Completed {
        successDelta := successDelta - 1;
      } else if oldStatus == Failed {
        errorDelta := errorDelta - 1;
      }
      if newStatus == Completed {
        successDelta := successDelta + 1;
      } else if newStatus == Failed {
        errorDelta := errorDelta + 1;
      }
      if successDelta != 0 || errorDelta != 0 {
        var job := jobs[jobId];
        job := job.(successCount := job.successCount + successDelta, errorCount := job.errorCount + errorDelta);
        if job.successCount + job.errorCount >= job.requestCount {
          job := job.(status := JobCompleted, completedAt := Some(now));
        }
        jobs := jobs[jobId := job];
      }
    }

    /**
     * The updates one by one. A job ends up completed exactly if it was before or some update changed
     * its counts and left as many of its items done as it has requests, at the time of the last such
     * update.
     */
    method UpdateBatchItemsStatus(updates: seq<Update>) returns (updatedCount: nat)
      requires Valid()
      modifies this
      ensures Valid()
      ensures updatedCount == KnownUpdates(old(items.Keys), updates)
      ensures items == ItemsAfter(old(items), updates) && FollowsUpdates(old(items), items, updates)
      ensures JobsFollow(old(items), old(jobs), jobs, updates)
      ensures forall j | j in jobs :: MarkFollows(old(items), j, old(jobs)[j], jobs[j], updates)
    {
      updatedCount := 0;
      assert updates[..0] == [];
      for n := 0 to |updates|
        invariant RunState(old(items), old(jobs), items, jobs, updates[..n])
        invariant updatedCount == KnownUpdates(old(items.Keys), updates[..n])
      {
        ghost var before, jobsBefore := items, jobs;
        var updated := UpdateBatchItem(updates[n].itemId, Some(updates[n].status), updates[n].time);
        RunStateOneMore(old(items), old(jobs), before, jobsBefore, updates, n, items, jobs);
        if updated.Some? {
          updatedCount := updatedCount + 1;
        }
      }
      assert updates[..|updates|] == updates;
      RunOutcome(old(items), old(jobs), items, jobs, updates);
    }
  }

  lemma MarksAfterRun(items: map<Id, Item>, before: map<Id, Job>, after: map<Id, Job>, updates: seq<Update>)
    requires AllAgree(items, before) && JobsFollow(items, before, after, updates)
    ensures forall j | j in after :: MarkFollows(items, j, before[j], after[j], updates)
  {
    forall j | j in after ensures MarkFollows(items, j, before[j], after[j], updates) {
      MarkAfterRun(items, j, before[j], updates);
    }
  }

  lemma StepKeepsAgreement(items: map<Id, Item>, jobs: map<Id, Job>, u: Update, later: map<Id, Job>)
    requires AllAgree(items, jobs) && JobsStep(items, jobs, later, u)
    ensures AllAgree(Apply(items, u), later)
  {
    forall j | j in jobs
      ensures Agrees(Apply(items, u), j, later[j]) && MarkedWhenDone(Apply(items, u), j, later[j])
    {
      MarkedWhenDoneAfterStep(items, j, jobs[j], u);
      if u.itemId in items {
        AgreesAfter(items, u.itemId, u.status, j, jobs[j], u.time);
      }
    }
  }

  /** Each job is what the updates make of it. */
  ghost predicate JobsFollow(items: map<Id, Item>, before: map<Id, Job>, after: map<Id, Job>, updates: seq<Update>) {
    && after.Keys == before.Keys
    && forall j | j in before :: after[j] == JobAfterRun(items, j, before[j], updates)
  }

  ghost predicate JobsStep(items: map<Id, Item>, before: map<Id, Job>, after: map<Id, Job>, u: Update) {
    && after.Keys == before.Keys
    && forall j | j in before :: after[j] == JobStep(items, j, before[j], u)
  }

  /** The state of the service after the updates. */
  ghost predicate RunState(items: map<Id, Item>, jobs: map<Id, Job>, nowItems: map<Id, Item>, nowJobs: map<Id, Job>,
                           updates: seq<Update>) {
    && AllAgree(nowItems, nowJobs) && nowItems.Keys == items.Keys
    && nowItems == ItemsAfter(items, updates) && JobsFollow(items, jobs, nowJobs, updates)
  }

  lemma RunStateOneMore(items: map<Id, Item>, jobs: map<Id, Job>, nowItems: map<Id, Item>, nowJobs: map<Id, Job>,
                        updates: seq<Update>, n: nat, laterItems: map<Id, Item>, laterJobs: map<Id, Job>)
    requires n < |updates| && RunState(items, jobs, nowItems, nowJobs, updates[..n])
    requires laterItems == Apply(nowItems, updates[n]) && JobsStep(nowItems, nowJobs, laterJobs, updates[n])
    requires AllAgree(laterItems, laterJobs)
    ensures RunState(items, jobs, laterItems, laterJobs, updates[..n + 1])
    ensures KnownUpdates(items.Keys, updates[..n + 1]) ==
            KnownUpdates(items.Keys, updates[..n]) + if updates[n].itemId in nowItems then 1 else 0
  {
    assert updates[..n + 1][..n] == updates[..n];
  }

  lemma RunOutcome(items: map<Id, Item>, jobs: map<Id, Job>, nowItems: map<Id, Item>, nowJobs: map<Id, Job>,
                   updates: seq<Update>)
    requires AllAgree(items, jobs) && RunState(items, jobs, nowItems, nowJobs, updates)
    ensures FollowsUpdates(items, nowItems, updates)
    ensures forall j | j in nowJobs :: MarkFollows(items, j, jobs[j], nowJobs[j], updates)
  {
    RunFollowsUpdates(items, updates);
    MarksAfterRun(items, jobs, nowJobs, updates);
  }

  /** How many of the updates are for known items. */
  function KnownUpdates(known: set<Id>, updates: seq<Update>): nat {
    if updates == [] then 0
    else KnownUpdates(known, updates[..|updates| - 1]) + if updates[|updates| - 1].itemId in known then 1 else 0
  }

  /** The last status that the updates give an item. */
  function LastStatus(initial: ItemStatus, updates: seq<Update>, id: Id): ItemStatus {
    if updates == [] then initial
    else if updates[|updates| - 1].itemId == id then updates[|updates| - 1].status
    else LastStatus(initial, updates[..|updates| - 1], id)
  }

  /** It is the status of the last update for the item, or as it was if there is none. */
  lemma {:induction false} LastStatusIs(initial: ItemStatus, updates: seq<Update>, id: Id, n: nat)
    requires n < |updates| && updates[n].itemId == id && forall m | n < m < |updates| :: updates[m].itemId != id
    ensures LastStatus(initial, updates, id) == updates[n].status
  {
    if n < |updates| - 1 {
      LastStatusIs(initial, updates[..|updates| - 1], id, n);
    }
  }

  lemma {:induction false} NoStatusGiven(initial: ItemStatus, updates: seq<Update>, id: Id)
    requires forall u | u in updates :: u.itemId != id
    ensures LastStatus(initial, updates, id) == initial
  {
    if updates != [] {
      NoStatusGiven(initial, updates[..|updates| - 1], id);
    }
  }

  /** Updates for known items are counted one by one, others are not. */
  lemma {:induction false} KnownUpdatesAddUp(known: set<Id>, a: seq<Update>, u: Update, b: seq<Update>)
    ensures KnownUpdates(known, a + [u] + b) == KnownUpdates(known, a) + (if u.itemId in known then 1 else 0) + KnownUpdates(known, b)
  {
    if b == [] {
      assert a + [u] + b == a + [u] && (a + [u])[..|a|] == a;
    } else {
      KnownUpdatesAddUp(known, a, u, b[..|b| - 1]);
      assert (a + [u] + b)[..|a + [u] + b| - 1] == a + [u] + b[..|b| - 1];
    }
  }

  /** Each item has the last status it was given. */
  ghost predicate FollowsUpdates(before: map<Id, Item>, after: map<Id, Item>, updates: seq<Update>) {
    && after.Keys == before.Keys
    && forall i | i in before :: after[i] == Item(before[i].jobId, LastStatus(before[i].status, updates, i))
  }

  lemma {:induction false} RunFollowsUpdates(items: map<Id, Item>, updates: seq<Update>)
    ensures FollowsUpdates(items, ItemsAfter(items, updates), updates)
  {
    if updates != [] {
      RunFollowsUpdates(items, updates[..|updates| - 1]);
    }
  }

  // ---------- Creation ----------

  lemma NoItems(items: map<Id, Item>, jobId: Id, requestCount: nat)
    requires forall i | i in items :: items[i].jobId != jobId
    ensures var job := Job(Created, requestCount, 0, 0, None);
      Agrees(items, jobId, job) && MarkedWhenDone(items, jobId, job)
  {
    assert ItemsOf(items, jobId) == {} && WithStatus(items, jobId, Completed) == {} == WithStatus(items, jobId, Failed);
  }

  /** New items are queued, so no job's completed and failed items change. */
  lemma CreationKeepsCounts(before: map<Id, Item>, jobId: Id, ids: seq<Id>, j: Id, status: ItemStatus)
    requires (forall i | i in ids :: i !in before) && Done(status)
    ensures WithStatus(before + NewItems(jobId, ids), j, status) == WithStatus(before, j, status)
  {
  }

  lemma ItemsAfterCreation(before: map<Id, Item>, jobId: Id, ids: seq<Id>, j: Id)
    requires forall i | i in ids :: i !in before
    ensures ItemsOf(before + NewItems(jobId, ids), j) == ItemsOf(before, j) + if j == jobId then IdSet(ids) else {}
  {
  }

  /** The new request count is the number of the job's items only if there were none before. */
  lemma SizedAfterCreation(before: map<Id, Item>, job: Job, jobId: Id, ids: seq<Id>)
    requires (forall i | i in ids :: i !in before) && NoDuplicates(ids)
    ensures Sized(before + NewItems(jobId, ids), jobId, job.(requestCount := |ids|)) <==> ItemsOf(before, jobId) == {}
  {
    ItemsAfterCreation(before, jobId, ids, jobId);
    DistinctIds(ids);
    assert ItemsOf(before, jobId) !! IdSet(ids);
  }

  lemma OtherJobAfterCreation(before: map<Id, Item>, jobId: Id, ids: seq<Id>, j: Id, job: Job)
    requires (forall i | i in ids :: i !in before) && j != jobId
    requires Agrees(before, j, job) && MarkedWhenDone(before, j, job)
    ensures Agrees(before + NewItems(jobId, ids), j, job) && MarkedWhenDone(before + NewItems(jobId, ids), j, job)
  {
    CreationKeepsCounts(before, jobId, ids, j, Completed);
    CreationKeepsCounts(before, jobId, ids, j, Failed);
    ItemsAfterCreation(before, jobId, ids, j);
  }

  lemma OwnJobAfterCreation(before: map<Id, Item>, jobId: Id, ids: seq<Id>, job: Job)
    requires (forall i | i in ids :: i !in before) && job.requestCount == |ids|
    requires Agrees(before, jobId, job)
    ensures Agrees(before + NewItems(jobId, ids), jobId, job) && MarkedWhenDone(before + NewItems(jobId, ids), jobId, job)
  {
    var items := before + NewItems(jobId, ids);
    CreationKeepsCounts(before, jobId, ids, jobId, Completed);
    CreationKeepsCounts(before, jobId, ids, jobId, Failed);
    if ids != [] {
      assert ids[0] in ItemsOf(items, jobId) && !Done(items[ids[0]].status);
    }
  }

  lemma AllAgreeAfterCreation(before: map<Id, Item>, jobs: map<Id, Job>, jobId: Id, ids: seq<Id>)
    requires AllAgree(before, jobs) && jobId in jobs
    requires forall i | i in ids :: i !in before
    ensures AllAgree(before + NewItems(jobId, ids), jobs[jobId := jobs[jobId].(requestCount := |ids|)])
  {
    OwnJobAfterCreation(before, jobId, ids, jobs[jobId].(requestCount := |ids|));
    forall j | j in jobs && j != jobId
      ensures Agrees(before + NewItems(jobId, ids), j, jobs[j]) && MarkedWhenDone(before + NewItems(jobId, ids), j, jobs[j])
    {
      OtherJobAfterCreation(before, jobId, ids, j, jobs[j]);
    }
  }

  lemma OneMoreItem(before: map<Id, Item>, jobId: Id, ids: seq<Id>, n: nat)
    requires n < |ids|
    ensures before + NewItems(jobId, ids[..n + 1]) == (before + NewItems(jobId, ids[..n]))[ids[n] := Item(jobId, Queued)]
  {
    assert ids[..n + 1] == ids[..n] + [ids[n]];
  }

  function IdSet(ids: seq<Id>): set<Id> {
    set i | i in ids
  }

  lemma {:induction false} DistinctIds(ids: seq<Id>)
    requires NoDuplicates(ids)
    ensures |IdSet(ids)| == |ids|
  {
    if ids != [] {
      var init, last := ids[..|ids| - 1], ids[|ids| - 1];
      DistinctIds(init);
      assert IdSet(ids) == IdSet(init) + {last};
    }
  }

  /** After a second creation of one item, the first item that is done completes the job of two. */
  lemma SecondCreationMarksEarly(first: Id, second: Id, jobId: Id)
    requires first != second
    ensures var items := map[first := Item(jobId, Queued)] + NewItems(jobId, [second]);
      var u := Update(first, Completed, 6);
      JobStep(items, jobId, Job(Created, 1, 0, 0, None), u).status == JobCompleted && !AllDone(Apply(items, u), jobId)
  {
    var items := map[first := Item(jobId, Queued)] + NewItems(jobId, [second]);
    assert second in ItemsOf(Apply(items, Update(first, Completed, 6)), jobId);
  }
}
