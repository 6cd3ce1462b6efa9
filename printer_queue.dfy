/** 3D print-queue batching: jobs are ordered by priority and packed greedily
    into groups that respect the printer's item and volume limits. */
module PrinterQueue {

  datatype Option<T> = None | Some(value: T)

  /** One print job; volumes are exact reals. */
  datatype PrintJob = PrintJob(id: string, volume: real, priority: int, printTime: int)

  /** What the printer can take in one group. */
  datatype PrinterConstraints = PrinterConstraints(maxVolume: real, maxItems: int)

  /** The result: groups of job ids in print order, and the accumulated time. */
  datatype PrintPlan = PrintPlan(printOrder: seq<seq<string>>, totalTime: int)

  function Max(a: int, b: int): int {
    if a >= b then a else b
  }

  function Ids(jobs: seq<PrintJob>): (r: seq<string>)
    ensures |r| == |jobs|
  {
    seq(|jobs|, k requires 0 <= k < |jobs| => jobs[k].id)
  }

  function IdGroups(groups: seq<seq<PrintJob>>): (r: seq<seq<string>>)
    ensures |r| == |groups|
  {
    seq(|groups|, k requires 0 <= k < |groups| => Ids(groups[k]))
  }

  /** The groups laid end to end. */
  function Flatten<T>(groups: seq<seq<T>>): seq<T> {
    if groups == [] then [] else Flatten(groups[..|groups| - 1]) + groups[|groups| - 1]
  }

  /** Total volume of a group. */
  function Volume(group: seq<PrintJob>): real {
    if group == [] then 0.0 else Volume(group[..|group| - 1]) + group[|group| - 1].volume
  }

  // ---------------------------------------------------------------------------
  // Stable ordering by ascending priority
  // ---------------------------------------------------------------------------

  predicate SortedByPriority(jobs: seq<PrintJob>) {
    forall a, b :: 0 <= a < b < |jobs| ==> jobs[a].priority <= jobs[b].priority
  }

  /** The jobs of priority p, in the order they occur. */
  function WithPriority(jobs: seq<PrintJob>, p: int): seq<PrintJob> {
    if jobs == [] then []
    else (if jobs[0].priority == p then [jobs[0]] else []) + WithPriority(jobs[1..], p)
  }

  /** Puts job in front of the first job of the same or a higher priority. */
  function InsertByPriority(job: PrintJob, jobs: seq<PrintJob>): seq<PrintJob> {
    if jobs == [] || job.priority <= jobs[0].priority then [job] + jobs
    else [jobs[0]] + InsertByPriority(job, jobs[1..])
  }

  /** Insertion sort by ascending priority; of two jobs with the same priority
      the earlier one stays first. */
  function SortByPriority(jobs: seq<PrintJob>): seq<PrintJob> {
    if jobs == [] then [] else InsertByPriority(jobs[0], SortByPriority(jobs[1..]))
  }

  lemma {:induction false} InsertByPriorityPermutes(job: PrintJob, jobs: seq<PrintJob>)
    ensures var r := InsertByPriority(job, jobs);
      && |r| == |jobs| + 1
      && multiset(r) == multiset([job] + jobs)
      && (r[0] == job || r[0] == jobs[0])
    decreases |jobs|
  {
    if !(jobs == [] || job.priority <= jobs[0].priority) {
      InsertByPriorityPermutes(job, jobs[1..]);
      assert jobs == [jobs[0]] + jobs[1..];
    }
  }

  lemma {:induction false} InsertByPriorityKeepsSorted(job: PrintJob, jobs: seq<PrintJob>)
    requires SortedByPriority(jobs)
    ensures SortedByPriority(InsertByPriority(job, jobs))
    decreases |jobs|
  {
    if !(jobs == [] || job.priority <= jobs[0].priority) {
      var tail := InsertByPriority(job, jobs[1..]);
      InsertByPriorityKeepsSorted(job, jobs[1..]);
      InsertByPriorityPermutes(job, jobs[1..]);
      assert forall b :: 0 <= b < |tail| ==> tail[0].priority <= tail[b].priority;
      var r := [jobs[0]] + tail;
      assert forall b :: 0 < b < |r| ==> r[b] == tail[b - 1];
    }
  }

  lemma {:induction false} InsertByPriorityKeepsOrder(job: PrintJob, jobs: seq<PrintJob>, p: int)
    ensures WithPriority(InsertByPriority(job, jobs), p) == WithPriority([job] + jobs, p)
    decreases |jobs|
  {
    if !(jobs == [] || job.priority <= jobs[0].priority) {
      var tail := InsertByPriority(job, jobs[1..]);
      InsertByPriorityKeepsOrder(job, jobs[1..], p);
      assert ([jobs[0]] + tail)[1..] == tail;
      assert ([job] + jobs)[1..] == jobs;
      assert ([job] + jobs[1..])[1..] == jobs[1..];
    }
  }

  /** The sort yields the same jobs, ordered by priority, and keeps the input
      order among jobs of equal priority. */
  lemma {:induction false} SortByPriorityIsStableSort(jobs: seq<PrintJob>)
    ensures var r := SortByPriority(jobs);
      && |r| == |jobs|
      && multiset(r) == multiset(jobs)
      && SortedByPriority(r)
      && forall p :: WithPriority(r, p) == WithPriority(jobs, p)
    decreases |jobs|
  {
    if jobs != [] {
      var rest := SortByPriority(jobs[1..]);
      SortByPriorityIsStableSort(jobs[1..]);
      InsertByPriorityPermutes(jobs[0], rest);
      InsertByPriorityKeepsSorted(jobs[0], rest);
      assert jobs == [jobs[0]] + jobs[1..];
      forall p ensures WithPriority(SortByPriority(jobs), p) == WithPriority(jobs, p) {
        InsertByPriorityKeepsOrder(jobs[0], rest, p);
        assert ([jobs[0]] + rest)[1..] == rest;
      }
    }
  }

  // ---------------------------------------------------------------------------
  // Greedy packing: the reference definition of the loop
  // ---------------------------------------------------------------------------

  /** The packing after some jobs: the groups already closed, the open group,
      and the accumulated time. */
  datatype Packing = Packing(closed: seq<seq<PrintJob>>, current: seq<PrintJob>, totalTime: int)

  /** A job joins the open group when the group holds fewer than maxItems jobs
      and the job's volume still fits under maxVolume. */
  predicate Fits(group: seq<PrintJob>, job: PrintJob, c: PrinterConstraints) {
    |group| < c.maxItems && Volume(group) + job.volume <= c.maxVolume
  }

  /** Joining takes the larger of the accumulated time and the job's time;
      starting a new group adds the job's time. */
  function PackStep(p: Packing, job: PrintJob, c: PrinterConstraints): Packing {
    if Fits(p.current, job, c) then
      Packing(p.closed, p.current + [job], Max(p.totalTime, job.printTime))
    else
      Packing(if p.current == [] then p.closed else p.closed + [p.current], [job], p.totalTime + job.printTime)
  }

  function Pack(jobs: seq<PrintJob>, c: PrinterConstraints): Packing {
    if jobs == [] then Packing([], [], 0)
    else PackStep(Pack(jobs[..|jobs| - 1], c), jobs[|jobs| - 1], c)
  }

  /** The groups of a packing, the open one last if it holds anything. */
  function Groups(p: Packing): seq<seq<PrintJob>> {
    if p.current == [] then p.closed else p.closed + [p.current]
  }

  /** The plan for the jobs in the order the optimizer handles them. */
  function Plan(jobs: seq<PrintJob>, c: PrinterConstraints): PrintPlan {
    var p := Pack(SortByPriority(jobs), c);
    PrintPlan(IdGroups(Groups(p)), p.totalTime)
  }

  lemma PackPrefix(jobs: seq<PrintJob>, k: nat, c: PrinterConstraints)
    requires k < |jobs|
    ensures Pack(jobs[..k + 1], c) == PackStep(Pack(jobs[..k], c), jobs[k], c)
  {
    assert jobs[..k + 1][..k] == jobs[..k];
  }

  lemma VolumeAppend(group: seq<PrintJob>, job: PrintJob)
    ensures Volume(group + [job]) == Volume(group) + job.volume
  {
    assert (group + [job])[..|group|] == group;
  }

  lemma IdGroupsAppend(groups: seq<seq<PrintJob>>, group: seq<PrintJob>)
    ensures IdGroups(groups + [group]) == IdGroups(groups) + [Ids(group)]
  {
  }

  lemma IdsAppend(group: seq<PrintJob>, job: PrintJob)
    ensures Ids(group + [job]) == Ids(group) + [job.id]
  {
  }

  // ---------------------------------------------------------------------------
  // The optimizer
  // ---------------------------------------------------------------------------

  /** Orders the jobs by priority and packs them in one pass; an empty job list
      or missing constraints give no plan. */
  method OptimizePrinting(printJobs: seq<PrintJob>, constraints: Option<PrinterConstraints>)
    returns (r: Option<PrintPlan>)
    ensures printJobs == [] || constraints == None ==> r == None
    ensures printJobs != [] && constraints != None ==> r == Some(Plan(printJobs, constraints.value))
  {
    if printJobs == [] || constraints == None {
      return None;
    }
    var c := constraints.value;
    var sortedJobs := SortByPriority(printJobs);
    var maxVolume := c.maxVolume;
    var maxItems := c.maxItems;
    var totalTime := 0;
    var currentVolume := 0.0;
    var itemsProcessed := 0;
    var currentGroups: seq<string> := [];
    var printOrder: seq<seq<string>> := [];
    for k := 0 to |sortedJobs|
      invariant totalTime == Pack(sortedJobs[..k], c).totalTime
      invariant currentVolume == Volume(Pack(sortedJobs[..k], c).current)
      invariant itemsProcessed == |Pack(sortedJobs[..k], c).current|
      invariant currentGroups == Ids(Pack(sortedJobs[..k], c).current)
      invariant printOrder == IdGroups(Pack(sortedJobs[..k], c).closed)
    {
      var job := sortedJobs[k];
      ghost var p := Pack(sortedJobs[..k], c);
      PackPrefix(sortedJobs, k, c);
      VolumeAppend(p.current, job);
      IdsAppend(p.current, job);
      IdGroupsAppend(p.closed, p.current);
      if itemsProcessed < maxItems && currentVolume + job.volume <= maxVolume {
        currentGroups := currentGroups + [job.id];
        currentVolume := currentVolume + job.volume;
        totalTime := Max(totalTime, job.printTime);
        itemsProcessed := itemsProcessed + 1;
      } else {
        if currentGroups != [] {
          printOrder := printOrder + [currentGroups];
        }
        currentGroups := [job.id];
        currentVolume := job.volume;
        totalTime := totalTime + job.printTime;
        itemsProcessed := 1;
        VolumeAppend([], job);
        assert [] + [job] == [job];
      }
    }
    assert sortedJobs[..|sortedJobs|] == sortedJobs;
    IdGroupsAppend(Pack(sortedJobs, c).closed, Pack(sortedJobs, c).current);
    if currentGroups != [] {
      printOrder := printOrder + [currentGroups];
    }
    return Some(PrintPlan(printOrder, totalTime));
  }
  // ---------------------------------------------------------------------------
  // Properties of the packing
  // ---------------------------------------------------------------------------

  lemma FlattenAppend<T>(groups: seq<seq<T>>, group: seq<T>)
    ensures Flatten(groups + [group]) == Flatten(groups) + group
  {
    assert (groups + [group])[..|groups|] == groups;
  }

  /** Every job of every group occurs in the groups laid end to end. */
  lemma {:induction false} FlattenHasMember<T>(groups: seq<seq<T>>, k: nat, m: nat)
    requires k < |groups| && m < |groups[k]|
    ensures groups[k][m] in Flatten(groups)
    decreases |groups|
  {
    var init := groups[..|groups| - 1];
    if k < |groups| - 1 {
      assert groups[k] == init[k];
      FlattenHasMember(init, k, m);
    }
  }

  /** One step adds the job at the end of the groups and leaves the open
      group non-empty. */
  lemma StepCovers(p: Packing, job: PrintJob, c: PrinterConstraints)
    ensures Flatten(Groups(PackStep(p, job, c))) == Flatten(Groups(p)) + [job]
    ensures PackStep(p, job, c).current != []
  {
    if p.current != [] {
      FlattenAppend(p.closed, p.current);
    }
    if Fits(p.current, job, c) {
      FlattenAppend(p.closed, p.current + [job]);
    } else {
      FlattenAppend(if p.current == [] then p.closed else p.closed + [p.current], [job]);
    }
  }

  /** The groups partition the jobs: laid end to end they are the jobs in the
      order they were handled; the open group is empty only before the first job. */
  lemma {:induction false} PackCoversJobs(jobs: seq<PrintJob>, c: PrinterConstraints)
    ensures Flatten(Groups(Pack(jobs, c))) == jobs
    ensures Pack(jobs, c).current == [] <==> jobs == []
    decreases |jobs|
  {
    if jobs != [] {
      var prefix, job := jobs[..|jobs| - 1], jobs[|jobs| - 1];
      PackCoversJobs(prefix, c);
      StepCovers(Pack(prefix, c), job, c);
      assert jobs == prefix + [job];
    }
  }

  /** A group within the printer's limits: not empty, at most maxItems jobs
      (one job when maxItems is below 1), and within maxVolume when it holds
      two or more jobs. */
  predicate WithinLimits(group: seq<PrintJob>, c: PrinterConstraints) {
    && 1 <= |group| <= Max(1, c.maxItems)
    && (|group| >= 2 ==> Volume(group) <= c.maxVolume)
  }

  predicate AllWithinLimits(groups: seq<seq<PrintJob>>, c: PrinterConstraints) {
    forall k :: 0 <= k < |groups| ==> WithinLimits(groups[k], c)
  }

  lemma AllWithinLimitsAppend(groups: seq<seq<PrintJob>>, group: seq<PrintJob>, c: PrinterConstraints)
    requires AllWithinLimits(groups, c) && WithinLimits(group, c)
    ensures AllWithinLimits(groups + [group], c)
  {
    forall k | 0 <= k < |groups + [group]| ensures WithinLimits((groups + [group])[k], c) {
      if k < |groups| {
        assert (groups + [group])[k] == groups[k];
      }
    }
  }

  /** Each step keeps every group within the limits: a job joins only when
      there is room for one more item and its volume fits, and otherwise it
      opens a group of one. */
  lemma StepWithinLimits(p: Packing, job: PrintJob, c: PrinterConstraints)
    requires AllWithinLimits(Groups(p), c)
    ensures AllWithinLimits(Groups(PackStep(p, job, c)), c)
  {
    if Fits(p.current, job, c) {
      assert Groups(PackStep(p, job, c)) == p.closed + [p.current + [job]];
      assert AllWithinLimits(p.closed, c) by {
        forall k | 0 <= k < |p.closed| ensures WithinLimits(p.closed[k], c) {
          assert p.closed[k] == Groups(p)[k];
        }
      }
      VolumeAppend(p.current, job);
      assert WithinLimits(p.current + [job], c);
      AllWithinLimitsAppend(p.closed, p.current + [job], c);
    } else {
      assert Groups(PackStep(p, job, c)) == Groups(p) + [[job]];
      assert Volume([job]) == job.volume by {
        assert [job][..0] == [];
      }
      assert WithinLimits([job], c);
      AllWithinLimitsAppend(Groups(p), [job], c);
    }
  }

  lemma {:induction false} PackWithinLimits(jobs: seq<PrintJob>, c: PrinterConstraints)
    ensures AllWithinLimits(Groups(Pack(jobs, c)), c)
    decreases |jobs|
  {
    if jobs != [] {
      PackWithinLimits(jobs[..|jobs| - 1], c);
      StepWithinLimits(Pack(jobs[..|jobs| - 1], c), jobs[|jobs| - 1], c);
    }
  }

  /** With non-negative volumes each job's volume is at most its group's. */
  lemma {:induction false} MemberVolumeAtMostVolume(group: seq<PrintJob>, m: nat)
    requires m < |group|
    requires forall k :: 0 <= k < |group| ==> group[k].volume >= 0.0
    ensures group[m].volume <= Volume(group)
    decreases |group|
  {
    var init := group[..|group| - 1];
    NonNegativeVolume(init);
    if m < |group| - 1 {
      assert group[m] == init[m];
      MemberVolumeAtMostVolume(init, m);
    }
  }

  lemma {:induction false} NonNegativeVolume(group: seq<PrintJob>)
    requires forall k :: 0 <= k < |group| ==> group[k].volume >= 0.0
    ensures Volume(group) >= 0.0
    decreases |group|
  {
    if group != [] {
      NonNegativeVolume(group[..|group| - 1]);
    }
  }

  /** With non-negative volumes a job larger than the printer's volume is
      printed alone. */
  lemma OversizeJobAlone(jobs: seq<PrintJob>, c: PrinterConstraints)
    requires forall k :: 0 <= k < |jobs| ==> jobs[k].volume >= 0.0
    ensures var groups := Groups(Pack(jobs, c));
      forall k, m :: 0 <= k < |groups| && 0 <= m < |groups[k]| && groups[k][m].volume > c.maxVolume ==>
        |groups[k]| == 1
  {
    var groups: seq<seq<PrintJob>> := Groups(Pack(jobs, c));
    PackCoversJobs(jobs, c);
    PackWithinLimits(jobs, c);
    forall k: nat, m: nat | 0 <= k < |groups| && 0 <= m < |groups[k]| && groups[k][m].volume > c.maxVolume
      ensures |groups[k]| == 1
    {
      forall n: nat | 0 <= n < |groups[k]| ensures groups[k][n].volume >= 0.0 {
        FlattenHasMember(groups, k, n);
      }
      MemberVolumeAtMostVolume(groups[k], m);
      assert WithinLimits(groups[k], c);
    }
  }

  /** The first job opens a group; every later job joins the last group exactly
      when that group holds fewer than maxItems jobs and the job's volume fits
      beside theirs, and otherwise starts a group of its own. */
  lemma JoinsExactlyWhenItFits(jobs: seq<PrintJob>, job: PrintJob, c: PrinterConstraints)
    ensures jobs == [] ==> Groups(Pack(jobs + [job], c)) == [[job]]
    ensures jobs != [] ==> |Groups(Pack(jobs, c))| > 0
    ensures jobs != [] ==>
      var groups := Groups(Pack(jobs, c));
      var last := groups[|groups| - 1];
      Groups(Pack(jobs + [job], c)) ==
        if |last| < c.maxItems && Volume(last) + job.volume <= c.maxVolume
        then groups[..|groups| - 1] + [last + [job]]
        else groups + [[job]]
  {
    assert (jobs + [job])[..|jobs|] == jobs;
    PackCoversJobs(jobs, c);
    var p := Pack(jobs, c);
    assert Pack(jobs + [job], c) == PackStep(p, job, c);
    if jobs == [] {
      assert p == Packing([], [], 0);
      assert [] + [job] == [job];
    } else {
      var groups := Groups(p);
      assert groups == p.closed + [p.current];
      assert groups[..|groups| - 1] == p.closed;
    }
  }

  // ---------------------------------------------------------------------------
  // The accumulated time
  // ---------------------------------------------------------------------------

  function TimeSum(jobs: seq<PrintJob>): int {
    if jobs == [] then 0 else TimeSum(jobs[..|jobs| - 1]) + jobs[|jobs| - 1].printTime
  }

  /** The summed print times of the first job of each group. */
  function LeaderTime(groups: seq<seq<PrintJob>>): int {
    if groups == [] then 0
    else
      var last := groups[|groups| - 1];
      LeaderTime(groups[..|groups| - 1]) + (if last == [] then 0 else last[0].printTime)
  }

  lemma LeaderTimeAppend(groups: seq<seq<PrintJob>>, group: seq<PrintJob>)
    ensures LeaderTime(groups + [group]) == LeaderTime(groups) + (if group == [] then 0 else group[0].printTime)
  {
    assert (groups + [group])[..|groups|] == groups;
  }

  /** With non-negative print times the accumulated time never decreases from
      one job to the next. */
  lemma {:induction false} TotalTimeGrows(jobs: seq<PrintJob>, k: nat, c: PrinterConstraints)
    requires k <= |jobs|
    requires forall m :: 0 <= m < |jobs| ==> jobs[m].printTime >= 0
    ensures Pack(jobs[..k], c).totalTime <= Pack(jobs, c).totalTime
    decreases |jobs|
  {
    if k < |jobs| {
      var prefix := jobs[..|jobs| - 1];
      assert prefix[..k] == jobs[..k];
      TotalTimeGrows(prefix, k, c);
    } else {
      assert jobs[..k] == jobs;
    }
  }

  lemma TimeSumAppend(jobs: seq<PrintJob>, job: PrintJob)
    ensures TimeSum(jobs + [job]) == TimeSum(jobs) + job.printTime
  {
    assert (jobs + [job])[..|jobs|] == jobs;
  }

  /** The bounds on the accumulated time after the jobs done so far, and the
      open group empty only at the start. */
  predicate TimeBounded(p: Packing, done: seq<PrintJob>) {
    && (forall m :: 0 <= m < |done| ==> done[m].printTime <= p.totalTime)
    && LeaderTime(Groups(p)) <= p.totalTime <= TimeSum(done)
    && 0 <= p.totalTime
    && (p.current == [] ==> p == Packing([], [], 0))
  }

  /** Joining keeps the bounds because it takes a maximum; starting a group
      keeps them because it adds the job's time, which opens that group. */
  lemma StepTimeBounded(p: Packing, done: seq<PrintJob>, job: PrintJob, c: PrinterConstraints)
    requires job.printTime >= 0
    requires TimeBounded(p, done)
    ensures TimeBounded(PackStep(p, job, c), done + [job])
  {
    var q := PackStep(p, job, c);
    assert q.totalTime >= p.totalTime && q.totalTime >= job.printTime;
    assert q.totalTime <= TimeSum(done + [job]) by {
      TimeSumAppend(done, job);
    }
    assert LeaderTime(Groups(q)) <= q.totalTime by {
      if Fits(p.current, job, c) {
        if p.current == [] {
          assert p.current + [job] == [job];
          assert Groups(q) == [] + [[job]];
          LeaderTimeAppend([], [job]);
        } else {
          LeaderTimeAppend(p.closed, p.current);
          LeaderTimeAppend(p.closed, p.current + [job]);
        }
      } else {
        assert Groups(q) == Groups(p) + [[job]];
        LeaderTimeAppend(Groups(p), [job]);
      }
    }
    assert forall m :: 0 <= m < |done + [job]| ==> (done + [job])[m].printTime <= q.totalTime by {
      assert forall m :: 0 <= m < |done| ==> (done + [job])[m] == done[m];
    }
  }

  /** With non-negative print times the accumulated time is at least every
      job's own time and at least the times of the jobs that open the groups
      added up, and at most all print times added up. */
  lemma {:induction false} TotalTimeBounds(jobs: seq<PrintJob>, c: PrinterConstraints)
    requires forall m :: 0 <= m < |jobs| ==> jobs[m].printTime >= 0
    ensures forall m :: 0 <= m < |jobs| ==> jobs[m].printTime <= Pack(jobs, c).totalTime
    ensures LeaderTime(Groups(Pack(jobs, c))) <= Pack(jobs, c).totalTime <= TimeSum(jobs)
    ensures 0 <= Pack(jobs, c).totalTime
    decreases |jobs|
  {
    TotalTimeBoundedAll(jobs, c);
  }

  lemma {:induction false} TotalTimeBoundedAll(jobs: seq<PrintJob>, c: PrinterConstraints)
    requires forall m :: 0 <= m < |jobs| ==> jobs[m].printTime >= 0
    ensures TimeBounded(Pack(jobs, c), jobs)
    decreases |jobs|
  {
    if jobs != [] {
      var prefix, job := jobs[..|jobs| - 1], jobs[|jobs| - 1];
      TotalTimeBoundedAll(prefix, c);
      StepTimeBounded(Pack(prefix, c), prefix, job, c);
      assert jobs == prefix + [job];
    }
  }

  // ---------------------------------------------------------------------------
  // The plan
  // ---------------------------------------------------------------------------

  lemma {:induction false} FlattenIdGroups(groups: seq<seq<PrintJob>>)
    ensures Flatten(IdGroups(groups)) == Ids(Flatten(groups))
    decreases |groups|
  {
    if groups != [] {
      var init, last := groups[..|groups| - 1], groups[|groups| - 1];
      FlattenIdGroups(init);
      assert groups == init + [last];
      IdGroupsAppend(init, last);
      FlattenAppend(IdGroups(init), Ids(last));
      FlattenAppend(init, last);
    }
  }

  lemma {:induction false} SortKeepsIds(jobs: seq<PrintJob>)
    ensures multiset(Ids(SortByPriority(jobs))) == multiset(Ids(jobs))
    decreases |jobs|
  {
    if jobs != [] {
      SortKeepsIds(jobs[1..]);
      InsertKeepsIds(jobs[0], SortByPriority(jobs[1..]));
      assert Ids(jobs) == [jobs[0].id] + Ids(jobs[1..]);
    }
  }

  lemma {:induction false} InsertKeepsIds(job: PrintJob, jobs: seq<PrintJob>)
    ensures multiset(Ids(InsertByPriority(job, jobs))) == multiset([job.id] + Ids(jobs))
    decreases |jobs|
  {
    if jobs == [] || job.priority <= jobs[0].priority {
      assert Ids([job] + jobs) == [job.id] + Ids(jobs);
    } else {
      var tail := InsertByPriority(job, jobs[1..]);
      InsertKeepsIds(job, jobs[1..]);
      assert Ids([jobs[0]] + tail) == [jobs[0].id] + Ids(tail);
      assert Ids(jobs) == [jobs[0].id] + Ids(jobs[1..]);
    }
  }

  /** The print order lists the ids of the jobs in stable ascending-priority
      order, each job once, in groups that are never empty and never longer
      than the item limit allows. */
  lemma PlanPrintOrder(jobs: seq<PrintJob>, c: PrinterConstraints)
    ensures Flatten(Plan(jobs, c).printOrder) == Ids(SortByPriority(jobs))
    ensures multiset(Flatten(Plan(jobs, c).printOrder)) == multiset(Ids(jobs))
    ensures forall k :: 0 <= k < |Plan(jobs, c).printOrder| ==>
      1 <= |Plan(jobs, c).printOrder[k]| <= Max(1, c.maxItems)
  {
    var groups := Groups(Pack(SortByPriority(jobs), c));
    FlattenIdGroups(groups);
    PackCoversJobs(SortByPriority(jobs), c);
    PackWithinLimits(SortByPriority(jobs), c);
    SortKeepsIds(jobs);
    assert forall k :: 0 <= k < |groups| ==> WithinLimits(groups[k], c);
  }

  // ---------------------------------------------------------------------------
  // Worked examples, with room for 300 units of volume and 2 jobs per group
  // ---------------------------------------------------------------------------

  const LIMITS: PrinterConstraints := PrinterConstraints(300.0, 2)

  /** Same priority: the first two share a group, the third would be a third item. */
  lemma SamePriority()
    ensures Plan([PrintJob("M1", 100.0, 1, 120), PrintJob("M2", 150.0, 1, 90), PrintJob("M3", 120.0, 1, 150)], LIMITS)
      == PrintPlan([["M1", "M2"], ["M3"]], 270)
  {
    var m1, m2, m3 := PrintJob("M1", 100.0, 1, 120), PrintJob("M2", 150.0, 1, 90), PrintJob("M3", 120.0, 1, 150);
    var jobs := [m1, m2, m3];
    assert SortByPriority([m3]) == [m3] by {
      assert [m3][1..] == [];
    }
    assert SortByPriority([m2, m3]) == [m2, m3] by {
      assert [m2, m3][1..] == [m3];
    }
    assert SortByPriority(jobs) == jobs by {
      assert jobs[1..] == [m2, m3];
    }
    assert jobs[..2] == [m1, m2];
    assert [m1, m2][..1] == [m1];
    assert [m1][..0] == [];
    assert Pack([m1], LIMITS) == Packing([], [m1], 120);
    assert Pack([m1, m2], LIMITS) == Packing([], [m1, m2], 120);
    assert Pack(jobs, LIMITS) == Packing([[m1, m2]], [m3], 270);
    assert Groups(Pack(jobs, LIMITS)) == [[m1, m2], [m3]];
    assert Ids([m1, m2]) == ["M1", "M2"] && Ids([m3]) == ["M3"];
    assert IdGroups([[m1, m2], [m3]]) == [["M1", "M2"], ["M3"]];
  }

  /** Different priorities: the priority-1 job is handled first. */
  lemma DifferentPrioritiesOrder()
    ensures SortByPriority([PrintJob("M1", 100.0, 2, 120), PrintJob("M2", 150.0, 1, 90), PrintJob("M3", 120.0, 3, 150)])
      == [PrintJob("M2", 150.0, 1, 90), PrintJob("M1", 100.0, 2, 120), PrintJob("M3", 120.0, 3, 150)]
  {
    var m1, m2, m3 := PrintJob("M1", 100.0, 2, 120), PrintJob("M2", 150.0, 1, 90), PrintJob("M3", 120.0, 3, 150);
    assert SortByPriority([m3]) == [m3] by {
      assert [m3][1..] == [];
    }
    assert SortByPriority([m2, m3]) == [m2, m3] by {
      assert [m2, m3][1..] == [m3];
    }
    assert [m1, m2, m3][1..] == [m2, m3];
    assert InsertByPriority(m1, [m2, m3]) == [m2] + InsertByPriority(m1, [m3]) by {
      assert [m2, m3][1..] == [m3];
    }
    assert InsertByPriority(m1, [m3]) == [m1, m3];
  }

  /** Different priorities: the priority-1 job shares a group with the
      priority-2 job, and the priority-3 job would be a third item. */
  lemma DifferentPriorities()
    ensures Plan([PrintJob("M1", 100.0, 2, 120), PrintJob("M2", 150.0, 1, 90), PrintJob("M3", 120.0, 3, 150)], LIMITS)
      == PrintPlan([["M2", "M1"], ["M3"]], 270)
  {
    var m1, m2, m3 := PrintJob("M1", 100.0, 2, 120), PrintJob("M2", 150.0, 1, 90), PrintJob("M3", 120.0, 3, 150);
    DifferentPrioritiesOrder();
    var sorted := [m2, m1, m3];
    assert Pack([m2], LIMITS) == Packing([], [m2], 90) by {
      assert [m2][..0] == [];
    }
    assert Pack([m2, m1], LIMITS) == Packing([], [m2, m1], 120) by {
      assert [m2, m1][..1] == [m2];
      assert Volume([m2]) == 150.0 by {
        assert [m2][..0] == [];
      }
    }
    assert Pack(sorted, LIMITS) == Packing([[m2, m1]], [m3], 270) by {
      assert sorted[..2] == [m2, m1];
    }
    assert Groups(Pack(sorted, LIMITS)) == [[m2, m1], [m3]];
    assert Ids([m2, m1]) == ["M2", "M1"] && Ids([m3]) == ["M3"];
    assert IdGroups([[m2, m1], [m3]]) == [["M2", "M1"], ["M3"]];
  }

  /** Exceeding the volume: every job is printed alone and every group adds. */
  lemma ExceedingVolume()
    ensures Plan([PrintJob("M1", 250.0, 1, 180), PrintJob("M2", 200.0, 1, 150), PrintJob("M3", 180.0, 2, 120)], LIMITS)
      == PrintPlan([["M1"], ["M2"], ["M3"]], 450)
  {
    var m1, m2, m3 := PrintJob("M1", 250.0, 1, 180), PrintJob("M2", 200.0, 1, 150), PrintJob("M3", 180.0, 2, 120);
    var jobs := [m1, m2, m3];
    assert SortByPriority([m3]) == [m3] by {
      assert [m3][1..] == [];
    }
    assert SortByPriority([m2, m3]) == [m2, m3] by {
      assert [m2, m3][1..] == [m3];
    }
    assert SortByPriority(jobs) == jobs by {
      assert jobs[1..] == [m2, m3];
    }
    assert jobs[..2] == [m1, m2];
    assert [m1, m2][..1] == [m1];
    assert [m1][..0] == [];
    assert Pack([m1], LIMITS) == Packing([], [m1], 180);
    assert Pack([m1, m2], LIMITS) == Packing([[m1]], [m2], 330);
    assert Pack(jobs, LIMITS) == Packing([[m1], [m2]], [m3], 450);
    assert Groups(Pack(jobs, LIMITS)) == [[m1], [m2], [m3]];
    assert Ids([m1]) == ["M1"] && Ids([m2]) == ["M2"] && Ids([m3]) == ["M3"];
    assert IdGroups([[m1], [m2], [m3]]) == [["M1"], ["M2"], ["M3"]];
  }

  /** The accumulated time is not the sum of each group's longest job: here the
      groups [A] and [B, C] have longest jobs of 10 and 20, yet the time is 20,
      because C joining takes the maximum with the 15 accumulated so far. */
  lemma TotalTimeIsNotPerGroupMaximum()
    ensures Plan([PrintJob("A", 100.0, 1, 10), PrintJob("B", 250.0, 1, 5), PrintJob("C", 50.0, 1, 20)], LIMITS)
      == PrintPlan([["A"], ["B", "C"]], 20)
  {
    var a, b, c := PrintJob("A", 100.0, 1, 10), PrintJob("B", 250.0, 1, 5), PrintJob("C", 50.0, 1, 20);
    var jobs := [a, b, c];
    assert SortByPriority([c]) == [c] by {
      assert [c][1..] == [];
    }
    assert SortByPriority([b, c]) == [b, c] by {
      assert [b, c][1..] == [c];
    }
    assert SortByPriority(jobs) == jobs by {
      assert jobs[1..] == [b, c];
    }
    assert jobs[..2] == [a, b];
    assert [a, b][..1] == [a];
    assert [a][..0] == [];
    assert Pack([a], LIMITS) == Packing([], [a], 10);
    assert Pack([a, b], LIMITS) == Packing([[a]], [b], 15);
    assert [b, c][..1] == [b];
    assert Pack(jobs, LIMITS) == Packing([[a]], [b, c], 20);
    assert Groups(Pack(jobs, LIMITS)) == [[a], [b, c]];
    assert Ids([a]) == ["A"] && Ids([b, c]) == ["B", "C"];
    assert IdGroups([[a], [b, c]]) == [["A"], ["B", "C"]];
  }
}
