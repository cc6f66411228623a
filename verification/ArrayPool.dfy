/** GridWay's array pool and job pool, and the steps that link their entries: submitting a job
(gridway-5.8/src/job/gw_job_pool.c:367-407), submitting an array of jobs
(gridway-5.8/src/array/gw_array_pool.c:135-212, gridway-5.8/src/array/gw_array.c:20-82) and
killing a job, which deletes its task and, with the last task, the array
(gridway-5.8/src/dm/gw_dm_action_kill.c:60-104, gridway-5.8/src/array/gw_array.c:86-100).

Both tables are scanned from the last identifier given plus one. The scans count their tries
but do not look at the end of the table; a scan that passes the end is the outcome `Overrun`.
 */
module ArrayPool {

  datatype TaskArray = TaskArray(id: int, last: int, freed: int, jobIds: seq<int>)

  datatype Job = Job(arrayId: int, taskId: int, totalTasks: int)

  /** The two tables with their sizes; a map's keys are the slots that are not NULL. */
  datatype Pools = Pools(
    jobLimit: nat, jobs: map<int, Job>, jobCount: int, lastJob: int,
    arrayLimit: nat, arrays: map<int, TaskArray>, arrayCount: int, lastArray: int)

  datatype Outcome = Done(pools: Pools) | Refused | Overrun

  datatype Action = SubmitJob | SubmitArray(tasks: nat) | Kill(job: int)

  function Start(jobLimit: nat, arrayLimit: nat): Pools {
    Pools(jobLimit, map[], 0, -1, arrayLimit, map[], 0, -1)
  }

  // ---------- one array (gw_array.c) ----------

  function NewArray(id: int, tasks: nat): TaskArray {
    TaskArray(id, -1, 0, seq(tasks, _ => -1))
  }

  /** There is room for one more task. */
  predicate HasRoom(a: TaskArray) {
    -1 <= a.last && a.last + 1 < |a.jobIds|
  }

  function AddTask(a: TaskArray, job: int): TaskArray
    requires HasRoom(a)
  {
    a.(last := a.last + 1, jobIds := a.jobIds[a.last + 1 := job])
  }

  function DelTask(a: TaskArray, task: int): TaskArray {
    if 0 <= task < |a.jobIds| && a.jobIds[task] != -1 then
      a.(freed := a.freed + 1, jobIds := a.jobIds[task := -1])
    else a
  }

  function Remaining(a: TaskArray): int { |a.jobIds| - a.freed }

  function Undeleted(a: TaskArray): set<int> {
    set t | 0 <= t < |a.jobIds| && a.jobIds[t] != -1
  }

  // ---------- the scan for a slot ----------

  datatype Slot = Found(index: nat) | Full | Outside

  function Scan(used: set<int>, limit: nat, from: nat, tries: nat): Slot
    decreases limit - tries
  {
    if tries >= limit then Full
    else if from >= limit then Outside
    else if from !in used then Found(from)
    else Scan(used, limit, from + 1, tries + 1)
  }

  /** What a scan meets, told without the scan. */
  lemma {:induction false} ScanMeets(used: set<int>, limit: nat, from: nat, tries: nat)
    requires tries <= from
    ensures match Scan(used, limit, from, tries)
            case Found(k) => from <= k < limit && k !in used && forall i :: from <= i < k ==> i in used
            case Full => (tries == from || tries >= limit) && forall i :: from <= i < limit ==> i in used
            case Outside => tries < from && tries < limit && forall i :: from <= i < limit ==> i in used
    decreases limit - tries
  {
    if tries < limit && from < limit && from in used {
      ScanMeets(used, limit, from + 1, tries + 1);
    }
  }

  // ---------- the steps ----------

  /** gw_job_pool_allocate, with the fields gw_job_init sets. */
  function SubmitOne(s: Pools): Outcome
    requires s.lastJob >= -1
  {
    match Scan(s.jobs.Keys, s.jobLimit, s.lastJob + 1, 0)
    case Full => Refused
    case Outside => Overrun
    case Found(k) => Done(s.(jobs := s.jobs[k := Job(-1, 0, 0)], jobCount := s.jobCount + 1, lastJob := k))
  }

  /** The job just allocated becomes the next task of array `a`. */
  function Attach(s: Pools, a: int): Pools
    requires a in s.arrays && HasRoom(s.arrays[a])
  {
    var entry := AddTask(s.arrays[a], s.lastJob);
    s.(arrays := s.arrays[a := entry], jobs := s.jobs[s.lastJob := Job(a, entry.last, |entry.jobIds|)])
  }

  predicate Filling(s: Pools, a: int, i: nat) {
    s.lastJob >= -1 && a in s.arrays && s.arrays[a].last == i - 1 && i <= |s.arrays[a].jobIds|
  }

  function Fill(s: Pools, a: int, i: nat): (o: Outcome)
    requires Filling(s, a, i)
    ensures !o.Refused?
    decreases |s.arrays[a].jobIds| - i
  {
    if i == |s.arrays[a].jobIds| then Done(s.(arrayCount := s.arrayCount + 1))
    else
      match SubmitOne(s)
      case Done(s') => Fill(Attach(s', a), a, i + 1)
      case _ => Overrun
  }

  /** gw_array_pool_array_allocate. */
  function SubmitMany(s: Pools, n: nat): Outcome
    requires s.lastJob >= -1 && s.lastArray >= -1
  {
    if n + s.jobCount > s.jobLimit then Refused
    else
      match Scan(s.arrays.Keys, s.arrayLimit, s.lastArray + 1, 0)
      case Full => Refused
      case Outside => Overrun
      case Found(a) => Fill(s.(lastArray := a, arrays := s.arrays[a := NewArray(a, n)]), a, 0)
  }

  /** gw_array_del_task and, when no task remains, gw_array_pool_array_free. */
  function Release(s: Pools, a: int, task: int): Pools
    requires a in s.arrays
  {
    var entry := DelTask(s.arrays[a], task);
    if Remaining(entry) == 0 then s.(arrays := s.arrays - {a}, arrayCount := s.arrayCount - 1)
    else s.(arrays := s.arrays[a := entry])
  }

  /** The job's slot is freed, but the number of jobs is not lowered (line 492 is commented out). */
  function KillOne(s: Pools, job: int): Outcome {
    if job !in s.jobs then Refused
    else
      var s', a := s.(jobs := s.jobs - {job}), s.jobs[job].arrayId;
      Done(if a != -1 && a in s.arrays then Release(s', a, s.jobs[job].taskId) else s')
  }

  function Next(s: Pools, a: Action): Outcome
    requires s.lastJob >= -1 && s.lastArray >= -1
  {
    match a
    case SubmitJob => SubmitOne(s)
    case SubmitArray(n) => SubmitMany(s, n)
    case Kill(job) => KillOne(s, job)
  }

  function After(s: Pools, o: Outcome): Pools {
    if o.Done? then o.pools else s
  }

  /** A run in which no scan passes the end of its table; an array has at least one task, as
      the client sees to (gridway-5.8/src/client/gw_client_submit.c:238-239). */
  ghost predicate IsRun(states: seq<Pools>, actions: seq<Action>) {
    && |states| == |actions| + 1
    && states[0] == Start(states[0].jobLimit, states[0].arrayLimit)
    && forall i :: 0 <= i < |actions| ==> IsStep(states[i], actions[i], states[i + 1])
  }

  ghost predicate IsStep(s: Pools, a: Action, s': Pools) {
    && s.lastJob >= -1 && s.lastArray >= -1 && (a.SubmitArray? ==> a.tasks > 0)
    && !Next(s, a).Overrun? && s' == After(s, Next(s, a))
  }

  // ---------- the invariant ----------

  ghost predicate TablesOk(s: Pools) {
    && -1 <= s.lastJob < s.jobLimit && s.jobCount == s.lastJob + 1
    && (forall j :: j in s.jobs ==> 0 <= j <= s.lastJob)
    && -1 <= s.lastArray < s.arrayLimit && s.arrayCount == |s.arrays|
    && (forall a :: a in s.arrays ==> 0 <= a <= s.lastArray)
    && s.lastArray <= s.lastJob
  }

  ghost predicate ArrayOk(a: int, entry: TaskArray) {
    && entry.id == a && entry.last == |entry.jobIds| - 1
    && Remaining(entry) == |Undeleted(entry)| > 0
  }

  /** Every task's job points back to the task. */
  ghost predicate TasksLinked(s: Pools) {
    forall a, t :: a in s.arrays && t in Undeleted(s.arrays[a]) ==>
      var j := s.arrays[a].jobIds[t];
      j in s.jobs && s.jobs[j] == Job(a, t, |s.arrays[a].jobIds|)
  }

  /** Every array job's task points back to the job. */
  ghost predicate JobsLinked(s: Pools) {
    forall j :: j in s.jobs && s.jobs[j].arrayId != -1 ==>
      && s.jobs[j].arrayId in s.arrays
      && var entry := s.arrays[s.jobs[j].arrayId];
         0 <= s.jobs[j].taskId < |entry.jobIds| && entry.jobIds[s.jobs[j].taskId] == j
  }

  ghost predicate Inv(s: Pools) {
    && TablesOk(s)
    && (forall a :: a in s.arrays ==> ArrayOk(a, s.arrays[a]))
    && TasksLinked(s) && JobsLinked(s)
  }

  /** In such a state a scan finds its first slot free, unless the table is used up. */
  lemma ScansFindNext(s: Pools)
    requires TablesOk(s)
    ensures Scan(s.jobs.Keys, s.jobLimit, s.lastJob + 1, 0)
         == if s.jobLimit == 0 then Full else if s.lastJob + 1 < s.jobLimit then Found(s.lastJob + 1) else Outside
    ensures Scan(s.arrays.Keys, s.arrayLimit, s.lastArray + 1, 0)
         == if s.arrayLimit == 0 then Full else if s.lastArray + 1 < s.arrayLimit then Found(s.lastArray + 1) else Outside
  {
  }

  lemma SubmitJobKeeps(s: Pools)
    requires Inv(s) && SubmitOne(s).Done?
    ensures Inv(SubmitOne(s).pools)
  {
    ScansFindNext(s);
    var s' := SubmitOne(s).pools;
    forall a, t | a in s'.arrays && t in Undeleted(s'.arrays[a])
      ensures var j := s'.arrays[a].jobIds[t]; j in s'.jobs && s'.jobs[j] == Job(a, t, |s'.arrays[a].jobIds|)
    {
      assert s.arrays[a].jobIds[t] in s.jobs;
    }
  }

  // ---------- filling an array ----------

  function Numbers(base: int, n: nat, i: nat): seq<int> {
    seq(n, t => if t < i then base + t else -1)
  }

  function NewJobs(jobs: map<int, Job>, base: int, a: int, n: nat, i: nat): map<int, Job> {
    if i == 0 then jobs else NewJobs(jobs, base, a, n, i - 1)[base + i - 1 := Job(a, i - 1, n)]
  }

  lemma {:induction false} NewJobsAre(jobs: map<int, Job>, base: int, a: int, n: nat, i: nat, j: int)
    requires forall k :: k in jobs ==> k < base
    ensures j in NewJobs(jobs, base, a, n, i) <==> j in jobs || base <= j < base + i
    ensures j in jobs ==> NewJobs(jobs, base, a, n, i)[j] == jobs[j]
    ensures base <= j < base + i ==> NewJobs(jobs, base, a, n, i)[j] == Job(a, j - base, n)
  {
    if i > 0 {
      NewJobsAre(jobs, base, a, n, i - 1, j);
    }
  }

  /** The pools once the first `i` of `n` tasks of the new array `a` have their jobs. */
  function Filled(s: Pools, a: int, n: nat, i: nat): Pools {
    s.(jobs := NewJobs(s.jobs, s.lastJob + 1, a, n, i), jobCount := s.jobCount + i, lastJob := s.lastJob + i,
       lastArray := a, arrays := s.arrays[a := TaskArray(a, i - 1, 0, Numbers(s.lastJob + 1, n, i))])
  }

  lemma NextJobFree(s: Pools, a: int, n: nat, i: nat)
    requires TablesOk(s) && i < n && n + s.jobCount <= s.jobLimit
    ensures var f := Filled(s, a, n, i);
            SubmitOne(f) == Done(f.(jobs := f.jobs[f.lastJob + 1 := Job(-1, 0, 0)],
                                    jobCount := f.jobCount + 1, lastJob := f.lastJob + 1))
  {
    var f := Filled(s, a, n, i);
    NewJobsAre(s.jobs, s.lastJob + 1, a, n, i, f.lastJob + 1);
    assert Scan(f.jobs.Keys, f.jobLimit, f.lastJob + 1, 0) == Found(f.lastJob + 1);
  }

  lemma FillStep(s: Pools, a: int, n: nat, i: nat)
    requires TablesOk(s) && i < n && n + s.jobCount <= s.jobLimit
    ensures var f := Filled(s, a, n, i);
            Filling(f, a, i) && SubmitOne(f).Done? && Attach(SubmitOne(f).pools, a) == Filled(s, a, n, i + 1)
  {
    NextJobFree(s, a, n, i);
    var base := s.lastJob + 1;
    assert Numbers(base, n, i)[i := base + i] == Numbers(base, n, i + 1);
    var jobs := NewJobs(s.jobs, base, a, n, i);
    assert jobs[base + i := Job(-1, 0, 0)][base + i := Job(a, i, n)] == jobs[base + i := Job(a, i, n)];
    var f, g := Filled(s, a, n, i), Filled(s, a, n, i + 1);
    assert f.arrays[a := g.arrays[a]] == g.arrays;
  }

  lemma {:induction false} FillsUp(s: Pools, a: int, n: nat, i: nat)
    requires TablesOk(s) && i <= n && n + s.jobCount <= s.jobLimit
    ensures Filling(Filled(s, a, n, i), a, i)
    ensures Fill(Filled(s, a, n, i), a, i) == Done(Filled(s, a, n, n).(arrayCount := s.arrayCount + 1))
    decreases n - i
  {
    if i < n {
      FillStep(s, a, n, i);
      FillsUp(s, a, n, i + 1);
    }
  }

  lemma FilledNone(s: Pools, a: int, n: nat)
    ensures Filled(s, a, n, 0) == s.(lastArray := a, arrays := s.arrays[a := NewArray(a, n)])
  {
    assert Numbers(s.lastJob + 1, n, 0) == seq(n, _ => -1);
  }

  lemma SubmitUnfolds(s: Pools, n: nat)
    requires TablesOk(s) && n + s.jobCount <= s.jobLimit && s.lastArray + 1 < s.arrayLimit
    ensures Filling(Filled(s, s.lastArray + 1, n, 0), s.lastArray + 1, 0)
    ensures SubmitMany(s, n) == Fill(Filled(s, s.lastArray + 1, n, 0), s.lastArray + 1, 0)
  {
    ArrayScanned(s);
    FilledNone(s, s.lastArray + 1, n);
  }

  lemma ArrayScanned(s: Pools)
    requires TablesOk(s) && s.lastArray + 1 < s.arrayLimit
    ensures Scan(s.arrays.Keys, s.arrayLimit, s.lastArray + 1, 0) == Found(s.lastArray + 1)
  {
    ScansFindNext(s);
  }

  lemma SubmitFills(s: Pools, n: nat)
    requires TablesOk(s) && n + s.jobCount <= s.jobLimit && s.lastArray + 1 < s.arrayLimit
    ensures SubmitMany(s, n) == Done(Filled(s, s.lastArray + 1, n, n).(arrayCount := s.arrayCount + 1))
  {
    SubmitUnfolds(s, n);
    FillsUp(s, s.lastArray + 1, n, 0);
  }

  lemma SubmitFails(s: Pools, n: nat)
    requires TablesOk(s) && (n + s.jobCount > s.jobLimit || s.lastArray + 1 >= s.arrayLimit)
    ensures SubmitMany(s, n) == if n + s.jobCount > s.jobLimit || s.arrayLimit == 0 then Refused else Overrun
  {
    ScansFindNext(s);
  }

  /** What submitting an array does: the check of the job count is all it takes for every job
      to be allocated, the jobs get the next `n` numbers and the array the next one. */
  lemma ArraySubmitted(s: Pools, n: nat)
    requires TablesOk(s)
    ensures n + s.jobCount > s.jobLimit || s.arrayLimit == 0 ==> SubmitMany(s, n) == Refused
    ensures n + s.jobCount <= s.jobLimit && 0 < s.arrayLimit <= s.lastArray + 1 ==> SubmitMany(s, n) == Overrun
    ensures n + s.jobCount <= s.jobLimit && s.lastArray + 1 < s.arrayLimit ==>
            SubmitMany(s, n) == Done(Filled(s, s.lastArray + 1, n, n).(arrayCount := s.arrayCount + 1))
  {
    if n + s.jobCount <= s.jobLimit && s.lastArray + 1 < s.arrayLimit {
      SubmitFills(s, n);
    } else {
      SubmitFails(s, n);
    }
  }

  lemma {:induction false} AllUndeleted(a: TaskArray)
    requires -1 !in a.jobIds
    ensures |Undeleted(a)| == |a.jobIds|
    decreases |a.jobIds|
  {
    if a.jobIds != [] {
      var n := |a.jobIds| - 1;
      var b := a.(jobIds := a.jobIds[..n]);
      AllUndeleted(b);
      assert Undeleted(a) == Undeleted(b) + {n};
    } else {
      assert Undeleted(a) == {};
    }
  }

  lemma NewTaskLinked(s: Pools, n: nat, t: nat)
    requires TablesOk(s) && t < n
    ensures var a := s.lastArray + 1;
            var f := Filled(s, a, n, n);
            var j := f.arrays[a].jobIds[t];
            j in f.jobs && f.jobs[j] == Job(a, t, n)
  {
    NewJobsAre(s.jobs, s.lastJob + 1, s.lastArray + 1, n, n, s.lastJob + 1 + t);
  }

  lemma OldTaskLinked(s: Pools, n: nat, b: int, t: int)
    requires Inv(s) && b in s.arrays && t in Undeleted(s.arrays[b])
    ensures var f, j := Filled(s, s.lastArray + 1, n, n), s.arrays[b].jobIds[t];
            j in f.jobs && f.jobs[j] == Job(b, t, |s.arrays[b].jobIds|)
  {
    NewJobsAre(s.jobs, s.lastJob + 1, s.lastArray + 1, n, n, s.arrays[b].jobIds[t]);
  }

  lemma FilledTasksLinked(s: Pools, n: nat)
    requires Inv(s)
    ensures TasksLinked(Filled(s, s.lastArray + 1, n, n))
  {
    var a, f := s.lastArray + 1, Filled(s, s.lastArray + 1, n, n);
    forall b, t | b in f.arrays && t in Undeleted(f.arrays[b])
      ensures var j := f.arrays[b].jobIds[t]; j in f.jobs && f.jobs[j] == Job(b, t, |f.arrays[b].jobIds|)
    {
      if b == a {
        NewTaskLinked(s, n, t);
      } else {
        OldTaskLinked(s, n, b, t);
      }
    }
  }

  lemma FilledJobsLinked(s: Pools, n: nat)
    requires Inv(s)
    ensures JobsLinked(Filled(s, s.lastArray + 1, n, n))
  {
    var a, base := s.lastArray + 1, s.lastJob + 1;
    var f := Filled(s, a, n, n);
    forall j | j in f.jobs && f.jobs[j].arrayId != -1
      ensures f.jobs[j].arrayId in f.arrays
      ensures var entry := f.arrays[f.jobs[j].arrayId];
              0 <= f.jobs[j].taskId < |entry.jobIds| && entry.jobIds[f.jobs[j].taskId] == j
    {
      NewJobsAre(s.jobs, base, a, n, n, j);
    }
  }

  lemma OneMoreKey<V>(m: map<int, V>, k: int, v: V)
    requires k !in m
    ensures |m[k := v]| == |m| + 1
  {
    assert m[k := v].Keys == m.Keys + {k};
    assert |m[k := v].Keys| == |m.Keys| + 1;
  }

  lemma FilledTables(s: Pools, n: nat)
    requires Inv(s) && n > 0 && n + s.jobCount <= s.jobLimit && s.lastArray + 1 < s.arrayLimit
    ensures TablesOk(Filled(s, s.lastArray + 1, n, n).(arrayCount := s.arrayCount + 1))
  {
    var a, f := s.lastArray + 1, Filled(s, s.lastArray + 1, n, n);
    OneMoreKey(s.arrays, a, f.arrays[a]);
    forall j | j in f.jobs
      ensures 0 <= j <= f.lastJob
    {
      NewJobsAre(s.jobs, s.lastJob + 1, a, n, n, j);
    }
  }

  lemma FilledArray(a: int, base: nat, n: nat)
    requires n > 0
    ensures ArrayOk(a, TaskArray(a, n - 1, 0, Numbers(base, n, n)))
  {
    AllUndeleted(TaskArray(a, n - 1, 0, Numbers(base, n, n)));
  }

  lemma FilledKeeps(s: Pools, n: nat)
    requires Inv(s) && n > 0 && n + s.jobCount <= s.jobLimit && s.lastArray + 1 < s.arrayLimit
    ensures Inv(Filled(s, s.lastArray + 1, n, n).(arrayCount := s.arrayCount + 1))
  {
    FilledTables(s, n);
    FilledArray(s.lastArray + 1, s.lastJob + 1, n);
    FilledTasksLinked(s, n);
    FilledJobsLinked(s, n);
  }

  lemma SubmitArrayKeeps(s: Pools, n: nat)
    requires Inv(s) && n > 0 && SubmitMany(s, n).Done?
    ensures Inv(SubmitMany(s, n).pools)
  {
    ArraySubmitted(s, n);
    FilledKeeps(s, n);
  }

  // ---------- killing a job ----------

  lemma DelTaskKeeps(entry: TaskArray, task: int)
    requires Remaining(entry) == |Undeleted(entry)| && task in Undeleted(entry)
    ensures Undeleted(DelTask(entry, task)) == Undeleted(entry) - {task}
    ensures Remaining(DelTask(entry, task)) == |Undeleted(DelTask(entry, task))|
  {
  }

  lemma KillKeepsLinks(s: Pools, job: int)
    requires Inv(s) && job in s.jobs
    ensures var s' := KillOne(s, job).pools; TasksLinked(s') && JobsLinked(s')
  {
    KillKeepsTasks(s, job);
    KillKeepsJobs(s, job);
  }

  lemma KillKeepsTasks(s: Pools, job: int)
    requires Inv(s) && job in s.jobs
    ensures TasksLinked(KillOne(s, job).pools)
  {
    var s', a, task := KillOne(s, job).pools, s.jobs[job].arrayId, s.jobs[job].taskId;
    if a != -1 {
      DelTaskKeeps(s.arrays[a], task);
    }
    forall b, t | b in s'.arrays && t in Undeleted(s'.arrays[b])
      ensures var j := s'.arrays[b].jobIds[t]; j in s'.jobs && s'.jobs[j] == Job(b, t, |s'.arrays[b].jobIds|)
    {
      assert t in Undeleted(s.arrays[b]);
      assert s.arrays[b].jobIds[t] in s.jobs;
    }
  }

  lemma KillKeepsJobs(s: Pools, job: int)
    requires Inv(s) && job in s.jobs
    ensures JobsLinked(KillOne(s, job).pools)
  {
    var s', a, task := KillOne(s, job).pools, s.jobs[job].arrayId, s.jobs[job].taskId;
    if a != -1 {
      DelTaskKeeps(s.arrays[a], task);
    }
    forall j | j in s'.jobs && s'.jobs[j].arrayId != -1
      ensures s'.jobs[j].arrayId in s'.arrays
      ensures var entry := s'.arrays[s'.jobs[j].arrayId];
              0 <= s'.jobs[j].taskId < |entry.jobIds| && entry.jobIds[s'.jobs[j].taskId] == j
    {
      assert j in s.jobs && s.jobs[j] == s'.jobs[j] && j != job;
      if s.jobs[j].arrayId == a {
        var t := s.jobs[j].taskId;
        assert t in Undeleted(s.arrays[a]) - {task};
      }
    }
  }

  lemma ReleaseKeeps(s: Pools, a: int, task: int)
    requires TablesOk(s) && (forall b :: b in s.arrays ==> ArrayOk(b, s.arrays[b]))
    requires a in s.arrays && task in Undeleted(s.arrays[a])
    ensures var s' := Release(s, a, task); TablesOk(s') && forall b :: b in s'.arrays ==> ArrayOk(b, s'.arrays[b])
  {
    DelTaskKeeps(s.arrays[a], task);
    var s' := Release(s, a, task);
    if a in s'.arrays {
      assert s'.arrays.Keys == s.arrays.Keys;
    } else {
      assert s'.arrays.Keys == s.arrays.Keys - {a};
    }
  }

  lemma KillKeeps(s: Pools, job: int)
    requires Inv(s) && job in s.jobs
    ensures Inv(KillOne(s, job).pools)
  {
    KillKeepsLinks(s, job);
    if s.jobs[job].arrayId != -1 {
      ReleaseKeeps(s.(jobs := s.jobs - {job}), s.jobs[job].arrayId, s.jobs[job].taskId);
    }
  }

  // ---------- all runs ----------

  lemma StepKeeps(s: Pools, a: Action)
    requires Inv(s) && (a.SubmitArray? ==> a.tasks > 0)
    ensures Inv(After(s, Next(s, a)))
    ensures s.lastArray <= After(s, Next(s, a)).lastArray && s.lastJob <= After(s, Next(s, a)).lastJob
  {
    match a
    case SubmitJob =>
      ScansFindNext(s);
      if SubmitOne(s).Done? { SubmitJobKeeps(s); }
    case SubmitArray(n) =>
      ArraySubmitted(s, n);
      if SubmitMany(s, n).Done? { SubmitArrayKeeps(s, n); }
    case Kill(job) =>
      if job in s.jobs { KillKeeps(s, job); }
  }

  lemma {:induction false} RunInv(states: seq<Pools>, actions: seq<Action>, i: nat)
    requires IsRun(states, actions) && i < |states|
    ensures Inv(states[i])
    ensures states[i].jobLimit == states[0].jobLimit && states[i].arrayLimit == states[0].arrayLimit
  {
    if i > 0 {
      RunInv(states, actions, i - 1);
      StepKeeps(states[i - 1], actions[i - 1]);
      LimitsStay(states[i - 1], actions[i - 1]);
    }
  }

  lemma LimitsStay(s: Pools, a: Action)
    requires Inv(s)
    ensures var s' := After(s, Next(s, a)); s'.jobLimit == s.jobLimit && s'.arrayLimit == s.arrayLimit
  {
    if a.SubmitArray? {
      ArraySubmitted(s, a.tasks);
    }
  }

  /** In every reachable state the number of arrays is the number of occupied slots, an array's
      tasks less its freed ones are its undeleted tasks (and it has some), and undeleted tasks
      and array jobs are in bijection through the fields that point at each other. */
  lemma PoolsAgree(states: seq<Pools>, actions: seq<Action>, i: nat)
    requires IsRun(states, actions) && i < |states|
    ensures var s := states[i];
            && s.arrayCount == |s.arrays|
            && (forall a :: a in s.arrays ==>
                  s.arrays[a].id == a && Remaining(s.arrays[a]) == |Undeleted(s.arrays[a])| > 0)
            && (forall a, t, j ::
                  (a in s.arrays && t in Undeleted(s.arrays[a]) && s.arrays[a].jobIds[t] == j) <==>
                  (a != -1 && j in s.jobs && s.jobs[j].arrayId == a && s.jobs[j].taskId == t))
            && (forall j :: j in s.jobs && s.jobs[j].arrayId in s.arrays ==>
                  s.jobs[j].totalTasks == |s.arrays[s.jobs[j].arrayId].jobIds|)
  {
    RunInv(states, actions, i);
    var s := states[i];
    forall a, t, j
      ensures (a in s.arrays && t in Undeleted(s.arrays[a]) && s.arrays[a].jobIds[t] == j) <==>
              (a != -1 && j in s.jobs && s.jobs[j].arrayId == a && s.jobs[j].taskId == t)
    {
      if a != -1 && j in s.jobs && s.jobs[j].arrayId == a && s.jobs[j].taskId == t {
        assert t in Undeleted(s.arrays[a]);
      }
    }
    forall j | j in s.jobs && s.jobs[j].arrayId in s.arrays
      ensures s.jobs[j].totalTasks == |s.arrays[s.jobs[j].arrayId].jobIds|
    {
      assert s.jobs[j].taskId in Undeleted(s.arrays[s.jobs[j].arrayId]);
    }
  }

  lemma {:induction false} LastsGrow(states: seq<Pools>, actions: seq<Action>, i: nat, k: nat)
    requires IsRun(states, actions) && i <= k < |states|
    ensures states[i].lastArray <= states[k].lastArray && states[i].lastJob <= states[k].lastJob
    decreases k - i
  {
    if i < k {
      LastsGrow(states, actions, i, k - 1);
      RunInv(states, actions, k - 1);
      assert IsStep(states[k - 1], actions[k - 1], states[k]);
      StepKeeps(states[k - 1], actions[k - 1]);
    }
  }

  lemma ArrayGives(s: Pools, n: nat, id: int)
    requires Inv(s)
    ensures id in After(s, SubmitMany(s, n)).arrays && id !in s.arrays ==> id > s.lastArray
    ensures id in After(s, SubmitMany(s, n)).jobs && id !in s.jobs ==> id > s.lastJob
  {
    ArraySubmitted(s, n);
    NewJobsAre(s.jobs, s.lastJob + 1, s.lastArray + 1, n, n, id);
  }

  /** A step gives only identifiers beyond the last one given. */
  lemma StepGives(s: Pools, a: Action, id: int)
    requires Inv(s)
    ensures id in After(s, Next(s, a)).arrays && id !in s.arrays ==> id > s.lastArray
    ensures id in After(s, Next(s, a)).jobs && id !in s.jobs ==> id > s.lastJob
  {
    match a
    case SubmitJob => ScansFindNext(s);
    case SubmitArray(n) => ArrayGives(s, n, id);
    case Kill(_) =>
  }

  /** An identifier once given is never given again, even after its array or job is freed. */
  lemma NeverReused(states: seq<Pools>, actions: seq<Action>, i: nat, k: nat, id: int)
    requires IsRun(states, actions) && i <= k < |actions|
    ensures id in states[k + 1].arrays && id !in states[k].arrays ==> id !in states[i].arrays
    ensures id in states[k + 1].jobs && id !in states[k].jobs ==> id !in states[i].jobs
  {
    LastsGrow(states, actions, i, k);
    RunInv(states, actions, i);
    RunInv(states, actions, k);
    StepGives(states[k], actions[k], id);
  }

  /** Where a run ends because a scan passes the end of its table, in every reachable state: a
      job submitted when all job numbers are used up, which no count check precedes
      (gridway-5.8/src/dm/gw_dm_action_allocate.c:66), or an array submitted when the count
      check passes but all array numbers are used up. */
  lemma OverrunsAre(states: seq<Pools>, actions: seq<Action>, i: nat, a: Action)
    requires IsRun(states, actions) && i < |states| && (a.SubmitArray? ==> a.tasks > 0)
    ensures var s := states[i];
            && s.lastJob >= -1 && s.lastArray >= -1
            && (Next(s, a) == Overrun <==>
                  match a
                  case SubmitJob => 0 < s.jobLimit == s.lastJob + 1
                  case SubmitArray(n) => n + s.jobCount <= s.jobLimit && 0 < s.arrayLimit == s.lastArray + 1
                  case Kill(_) => false)
  {
    RunInv(states, actions, i);
    ScansFindNext(states[i]);
    if a.SubmitArray? {
      ArraySubmitted(states[i], a.tasks);
    }
  }

  /** Some run leads to a job submission whose scan passes the end of the table. */
  ghost predicate JobsCanOverrun(jobLimit: nat, arrayLimit: nat) {
    exists states: seq<Pools>, actions: seq<Action> ::
      && IsRun(states, actions) && states[0] == Start(jobLimit, arrayLimit)
      && states[|actions|].lastJob >= -1 && SubmitOne(states[|actions|]) == Overrun
  }

  lemma {:induction false} SingleJobs(jobLimit: nat, arrayLimit: nat, k: nat)
      returns (states: seq<Pools>, actions: seq<Action>)
    requires k <= jobLimit
    ensures IsRun(states, actions) && states[0] == Start(jobLimit, arrayLimit) && |actions| == k
    ensures states[k].lastJob == k - 1 && states[k].jobLimit == jobLimit
  {
    if k == 0 {
      states, actions := [Start(jobLimit, arrayLimit)], [];
    } else {
      states, actions := SingleJobs(jobLimit, arrayLimit, k - 1);
      RunInv(states, actions, k - 1);
      ScansFindNext(states[k - 1]);
      var next := After(states[k - 1], Next(states[k - 1], SubmitJob));
      RunExtends(states, actions, SubmitJob);
      states, actions := states + [next], actions + [SubmitJob];
    }
  }

  /** The scan for a job slot can pass the end of its table unless the table is empty: nothing
      counts the jobs before a single job is submitted. */
  lemma JobOverrunExactly(jobLimit: nat, arrayLimit: nat)
    ensures JobsCanOverrun(jobLimit, arrayLimit) <==> 0 < jobLimit
  {
    if JobsCanOverrun(jobLimit, arrayLimit) {
      var states: seq<Pools>, actions: seq<Action> :|
        && IsRun(states, actions) && states[0] == Start(jobLimit, arrayLimit)
        && states[|actions|].lastJob >= -1 && SubmitOne(states[|actions|]) == Overrun;
      RunInv(states, actions, |actions|);
      OverrunsAre(states, actions, |actions|, SubmitJob);
    }
    if 0 < jobLimit {
      var states, actions := SingleJobs(jobLimit, arrayLimit, jobLimit);
      OverrunsAre(states, actions, jobLimit, SubmitJob);
    }
  }

  /** Some run leads to an array submission whose scan passes the end of the table. */
  ghost predicate CanOverrun(jobLimit: nat, arrayLimit: nat) {
    exists states: seq<Pools>, actions: seq<Action>, n: nat ::
      && IsRun(states, actions) && states[0] == Start(jobLimit, arrayLimit) && n > 0
      && states[|actions|].lastJob >= -1 && states[|actions|].lastArray >= -1
      && SubmitMany(states[|actions|], n) == Overrun
  }

  lemma RunExtends(states: seq<Pools>, actions: seq<Action>, a: Action)
    requires IsRun(states, actions) && Inv(states[|actions|]) && (a.SubmitArray? ==> a.tasks > 0)
    requires !Next(states[|actions|], a).Overrun?
    ensures IsRun(states + [After(states[|actions|], Next(states[|actions|], a))], actions + [a])
  {
    var s := states[|actions|];
    var states', actions' := states + [After(s, Next(s, a))], actions + [a];
    assert states'[0] == states[0] && IsStep(s, a, After(s, Next(s, a)));
    forall i | 0 <= i < |actions'|
      ensures IsStep(states'[i], actions'[i], states'[i + 1])
    {
      if i < |actions| {
        assert IsStep(states[i], actions[i], states[i + 1]);
      }
    }
  }

  lemma OneTaskMore(s: Pools)
    requires Inv(s) && s.jobCount < s.jobLimit && s.lastArray + 1 < s.arrayLimit
    ensures !Next(s, SubmitArray(1)).Overrun?
    ensures After(s, Next(s, SubmitArray(1))).lastArray == s.lastArray + 1
    ensures After(s, Next(s, SubmitArray(1))).lastJob == s.lastJob + 1
  {
    ArraySubmitted(s, 1);
  }

  lemma {:induction false} OneTaskArrays(jobLimit: nat, arrayLimit: nat, k: nat)
      returns (states: seq<Pools>, actions: seq<Action>)
    requires k <= arrayLimit && k <= jobLimit
    ensures IsRun(states, actions) && states[0] == Start(jobLimit, arrayLimit) && |actions| == k
    ensures states[k].lastArray == k - 1 && states[k].lastJob == k - 1
  {
    if k == 0 {
      states, actions := [Start(jobLimit, arrayLimit)], [];
    } else {
      states, actions := OneTaskArrays(jobLimit, arrayLimit, k - 1);
      RunInv(states, actions, k - 1);
      OneTaskMore(states[k - 1]);
      var next := After(states[k - 1], Next(states[k - 1], SubmitArray(1)));
      RunExtends(states, actions, SubmitArray(1));
      states, actions := states + [next], actions + [SubmitArray(1)];
    }
  }

  /** The scan for an array slot can pass the end of its table if and only if there are fewer
      array slots than job slots (and any at all): otherwise the check of the job count, meant
      for the job table, protects the array table too. */
  lemma OverrunExactly(jobLimit: nat, arrayLimit: nat)
    ensures CanOverrun(jobLimit, arrayLimit) <==> 0 < arrayLimit < jobLimit
  {
    if CanOverrun(jobLimit, arrayLimit) {
      var states: seq<Pools>, actions: seq<Action>, n: nat :|
        && IsRun(states, actions) && states[0] == Start(jobLimit, arrayLimit) && n > 0
        && states[|actions|].lastJob >= -1 && states[|actions|].lastArray >= -1
        && SubmitMany(states[|actions|], n) == Overrun;
      RunInv(states, actions, |actions|);
      ArraySubmitted(states[|actions|], n);
    }
    if 0 < arrayLimit < jobLimit {
      var states, actions := OneTaskArrays(jobLimit, arrayLimit, arrayLimit);
      RunInv(states, actions, arrayLimit);
      ArraySubmitted(states[arrayLimit], 1);
    }
  }
}
