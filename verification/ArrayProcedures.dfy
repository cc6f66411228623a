/** The array code as it is written: an array that is changed in place (gw_array.c), and the
daemon's two tables with the loops over them (gw_array_pool.c, gw_job_pool.c). Every method
is proved against the functions of `ArrayPool`.
 */
module ArrayProcedures {
  import opened ArrayPool

  /** gw_array_t. */
  class GwArray {
    const arrayId: int
    const numberOfTasks: nat
    const jobIds: array<int>
    var lastTaskId: int
    var freedTasks: int

    ghost predicate Valid() { jobIds.Length == numberOfTasks }

    ghost function View(): TaskArray
      reads this, jobIds
    {
      TaskArray(arrayId, lastTaskId, freedTasks, jobIds[..])
    }

    /** gw_array_init. */
    constructor (tasks: nat, id: int)
      ensures Valid() && fresh(jobIds) && arrayId == id && numberOfTasks == tasks && View() == NewArray(id, tasks)
    {
      arrayId, lastTaskId, numberOfTasks, freedTasks := id, -1, tasks, 0;
      jobIds := new int[tasks];
      new;
      for i := 0 to numberOfTasks
        invariant forall t :: 0 <= t < i ==> jobIds[t] == -1
        invariant lastTaskId == -1 && freedTasks == 0
      {
        jobIds[i] := -1;
      }
      assert jobIds[..] == seq(tasks, _ => -1);
    }

    /** gw_array_add_task; its guard lets `lastTaskId == numberOfTasks - 1` pass, and then the
        write is past the end of the table. */
    method AddTask(jobId: int) returns (task: int, overrun: bool)
      requires Valid() && -1 <= lastTaskId
      modifies this`lastTaskId, jobIds
      ensures -1 <= lastTaskId && (overrun <==> old(lastTaskId) == numberOfTasks - 1)
      ensures HasRoom(old(View())) ==> View() == ArrayPool.AddTask(old(View()), jobId) && task == View().last
      ensures !HasRoom(old(View())) ==> View() == old(View())
      ensures old(lastTaskId) >= numberOfTasks ==> task == -1
    {
      task, overrun := lastTaskId, false;
      if task >= numberOfTasks {
        return -1, false;
      }
      task := task + 1;
      if task >= jobIds.Length {
        return task, true;
      }
      jobIds[task] := jobId;
      lastTaskId := task;
    }

    /** gw_array_del_task. */
    method DelTask(task: int) returns (remaining: int)
      requires Valid()
      modifies this`freedTasks, jobIds
      ensures View() == ArrayPool.DelTask(old(View()), task) && remaining == Remaining(View())
    {
      if 0 <= task < numberOfTasks {
        if jobIds[task] != -1 {
          jobIds[task] := -1;
          freedTasks := freedTasks + 1;
        }
      }
      remaining := numberOfTasks - freedTasks;
    }
  }

  datatype JobSlot = Null | Allocated(job: Job)

  lemma UpdateThenRemove<K, V>(m: map<K, V>, k: K, v: V)
    ensures m[k := v] - {k} == m - {k}
  {
  }

  lemma SubmitManyFound(s: Pools, n: nat, a: nat)
    requires s.lastJob >= -1 && s.lastArray >= -1 && n + s.jobCount <= s.jobLimit
    requires Scan(s.arrays.Keys, s.arrayLimit, s.lastArray + 1, 0) == Found(a)
    ensures var placed := s.(lastArray := a, arrays := s.arrays[a := NewArray(a, n)]);
            Filling(placed, a, 0) && SubmitMany(s, n) == Fill(placed, a, 0)
  {
  }

  /** gw_job_pool, gw_array_pool and the sizes from gw_conf. */
  class Daemon {
    const jobs: array<JobSlot>
    const arrays: array<GwArray?>
    var numberOfJobs: int
    var lastJobId: int
    var numberOfArrays: int
    var lastArrayId: int

    /** No two entries share memory. */
    ghost predicate Valid()
      reads arrays
    {
      && (forall i :: 0 <= i < arrays.Length && arrays[i] != null ==> arrays[i].Valid())
      && (forall i, k :: 0 <= i < k < arrays.Length && arrays[i] != null && arrays[k] != null ==>
            arrays[i] != arrays[k] && arrays[i].jobIds != arrays[k].jobIds)
    }

    ghost function Entries(): set<object>
      reads arrays
    {
      (set i | 0 <= i < arrays.Length && arrays[i] != null :: arrays[i] as object) +
      (set i | 0 <= i < arrays.Length && arrays[i] != null :: arrays[i].jobIds as object)
    }

    ghost function Jobs(): map<int, Job>
      reads jobs
    {
      map i | 0 <= i < jobs.Length && jobs[i].Allocated? :: jobs[i].job
    }

    ghost function Arrays(): map<int, TaskArray>
      reads arrays, Entries()
    {
      map i | 0 <= i < arrays.Length && arrays[i] != null :: arrays[i].View()
    }

    ghost function View(): Pools
      reads this, jobs, arrays, Entries()
    {
      Pools(jobs.Length, Jobs(), numberOfJobs, lastJobId, arrays.Length, Arrays(), numberOfArrays, lastArrayId)
    }

    constructor (jobLimit: nat, arrayLimit: nat)
      ensures Valid() && fresh(jobs) && fresh(arrays) && View() == Start(jobLimit, arrayLimit)
    {
      jobs := new JobSlot[jobLimit](_ => Null);
      arrays := new GwArray?[arrayLimit](_ => null);
      numberOfJobs, lastJobId, numberOfArrays, lastArrayId := 0, -1, 0, -1;
    }

    /** The first loop of gw_job_pool_allocate; `outside` when it reads past the table. */
    method ScanJobs() returns (found: bool, outside: bool, jobId: int)
      requires lastJobId >= -1
      ensures found ==> 0 <= jobId < jobs.Length
      ensures Scan(Jobs().Keys, jobs.Length, lastJobId + 1, 0) == if outside then Outside else if found then Found(jobId) else Full
    {
      jobId := lastJobId + 1;
      found, outside := false, false;
      var tries := 0;
      while !found && tries < jobs.Length
        invariant 0 <= tries <= jobs.Length && 0 <= jobId && !outside
        invariant found ==> jobId < jobs.Length && Scan(Jobs().Keys, jobs.Length, lastJobId + 1, 0) == Found(jobId)
        invariant !found ==>
          Scan(Jobs().Keys, jobs.Length, lastJobId + 1, 0) == Scan(Jobs().Keys, jobs.Length, jobId, tries)
        decreases !found, jobs.Length - tries
      {
        if jobId >= jobs.Length {
          return false, true, jobId;
        }
        found := jobs[jobId].Null?;
        if !found {
          tries := tries + 1;
          jobId := jobId + 1;
        }
      }
    }

    /** gw_job_pool_allocate. */
    method AllocateJob() returns (jobId: int, overrun: bool)
      requires Valid() && lastJobId >= -1
      modifies this`numberOfJobs, this`lastJobId, jobs
      ensures Valid() && (overrun <==> SubmitOne(old(View())).Overrun?)
      ensures match SubmitOne(old(View()))
              case Done(p) => View() == p && jobId == p.lastJob && jobId < jobs.Length
              case Refused => View() == old(View()) && jobId == -1
              case Overrun => View() == old(View())
    {
      var found;
      found, overrun, jobId := ScanJobs();
      if overrun {
        return jobId, true;
      }
      if !found {
        return -1, false;
      }
      jobs[jobId] := Allocated(Job(-1, 0, 0));
      lastJobId := jobId;
      numberOfJobs := numberOfJobs + 1;
      assert Jobs() == old(Jobs())[jobId := Job(-1, 0, 0)];
      assert Arrays() == old(Arrays());
    }

    /** Lines 194-200 of gw_array_pool.c. */
    method AttachJob(entry: GwArray, jobId: int, arrayId: int)
      requires Valid() && 0 <= arrayId < arrays.Length && arrays[arrayId] == entry
      requires 0 <= jobId < jobs.Length && jobId == lastJobId
      requires HasRoom(entry.View())
      modifies entry`lastTaskId, entry.jobIds, jobs
      ensures Valid() && View() == Attach(old(View()), arrayId)
    {
      var task, _ := entry.AddTask(jobId);
      assert forall k :: 0 <= k < arrays.Length && k != arrayId && arrays[k] != null ==>
        arrays[k].View() == old(arrays[k].View());
      jobs[jobId] := Allocated(Job(arrayId, task, entry.numberOfTasks));
      assert Jobs() == old(Jobs())[jobId := Job(arrayId, task, entry.numberOfTasks)];
      assert Arrays() == old(Arrays())[arrayId := entry.View()];
    }

    /** The first loop of gw_array_pool_array_allocate. */
    method ScanArrays() returns (found: bool, outside: bool, arrayId: int)
      requires lastArrayId >= -1
      ensures found ==> 0 <= arrayId < arrays.Length && arrays[arrayId] == null
      ensures Scan(Arrays().Keys, arrays.Length, lastArrayId + 1, 0) == if outside then Outside else if found then Found(arrayId) else Full
    {
      arrayId := lastArrayId + 1;
      found, outside := false, false;
      var tries := 0;
      while !found && tries < arrays.Length
        invariant 0 <= tries <= arrays.Length && 0 <= arrayId && !outside
        invariant found ==>
          && arrayId < arrays.Length && arrays[arrayId] == null
          && Scan(Arrays().Keys, arrays.Length, lastArrayId + 1, 0) == Found(arrayId)
        invariant !found ==>
          Scan(Arrays().Keys, arrays.Length, lastArrayId + 1, 0) == Scan(Arrays().Keys, arrays.Length, arrayId, tries)
        decreases !found, arrays.Length - tries
      {
        if arrayId >= arrays.Length {
          return false, true, arrayId;
        }
        found := arrays[arrayId] == null;
        if !found {
          tries := tries + 1;
          arrayId := arrayId + 1;
        }
      }
    }

    /** Lines 175-181: the slot found gets a new array. */
    method PlaceArray(tasks: nat, arrayId: int) returns (entry: GwArray)
      requires Valid() && 0 <= arrayId < arrays.Length && arrays[arrayId] == null
      modifies this`lastArrayId, arrays
      ensures Valid() && arrays[arrayId] == entry && entry.numberOfTasks == tasks
      ensures fresh(entry) && fresh(entry.jobIds)
      ensures forall k :: 0 <= k < arrays.Length && k != arrayId ==> arrays[k] == old(arrays[k])
      ensures View() == old(View()).(lastArray := arrayId, arrays := old(View()).arrays[arrayId := NewArray(arrayId, tasks)])
    {
      lastArrayId := arrayId;
      entry := new GwArray(tasks, arrayId);
      arrays[arrayId] := entry;
      assert forall k :: 0 <= k < arrays.Length && k != arrayId && arrays[k] != null ==>
        arrays[k].View() == old(arrays[k].View());
      assert Arrays() == old(Arrays())[arrayId := NewArray(arrayId, tasks)];
    }

    /** One turn of the loop that gives every task its job; `overrun` when there is no job to
        give, which the loop does not look at. */
    method FillOne(entry: GwArray, arrayId: int, i: nat) returns (overrun: bool)
      requires Valid() && 0 <= arrayId < arrays.Length && arrays[arrayId] == entry && i < entry.numberOfTasks
      requires Filling(View(), arrayId, i)
      modifies this`numberOfJobs, this`lastJobId, jobs, entry`lastTaskId, entry.jobIds
      ensures Valid() && (overrun ==> old(Fill(View(), arrayId, i)).Overrun?)
      ensures !overrun ==> Filling(View(), arrayId, i + 1) && Fill(View(), arrayId, i + 1) == old(Fill(View(), arrayId, i))
    {
      var jobId;
      jobId, overrun := AllocateJob();
      if overrun || jobId == -1 {
        return true;
      }
      AttachJob(entry, jobId, arrayId);
    }

    /** Lines 191-203: the loop. */
    method FillArray(entry: GwArray, arrayId: int) returns (overrun: bool)
      requires Valid() && 0 <= arrayId < arrays.Length && arrays[arrayId] == entry
      requires Filling(View(), arrayId, 0)
      modifies this`numberOfJobs, this`lastJobId, jobs, entry`lastTaskId, entry.jobIds
      ensures Valid() && (overrun ==> old(Fill(View(), arrayId, 0)).Overrun?)
      ensures !overrun ==> Filling(View(), arrayId, entry.numberOfTasks)
                           && Fill(View(), arrayId, entry.numberOfTasks) == old(Fill(View(), arrayId, 0))
    {
      ghost var goal := Fill(View(), arrayId, 0);
      overrun := false;
      for i := 0 to entry.numberOfTasks
        invariant Valid() && !overrun
        invariant Filling(View(), arrayId, i)
        invariant Fill(View(), arrayId, i) == goal
      {
        overrun := FillOne(entry, arrayId, i);
        if overrun {
          return;
        }
      }
    }

    /** Line 207. */
    method CountArray(arrayId: int)
      requires Valid() && 0 <= arrayId < arrays.Length && arrays[arrayId] != null
      requires Filling(View(), arrayId, arrays[arrayId].numberOfTasks)
      modifies this`numberOfArrays
      ensures Done(View()) == old(Fill(View(), arrayId, arrays[arrayId].numberOfTasks))
    {
      numberOfArrays := numberOfArrays + 1;
    }

    /** Lines 175-207: the new array, once a slot is found. */
    method BuildArray(tasks: nat, arrayId: int) returns (overrun: bool)
      requires Valid() && 0 <= arrayId < arrays.Length && arrays[arrayId] == null
      requires lastJobId >= -1 && tasks + numberOfJobs <= jobs.Length && lastArrayId >= -1
      requires Scan(Arrays().Keys, arrays.Length, lastArrayId + 1, 0) == Found(arrayId)
      modifies this, jobs, arrays
      ensures Valid() && (overrun ==> SubmitMany(old(View()), tasks).Overrun?)
      ensures !overrun ==> Done(View()) == SubmitMany(old(View()), tasks)
    {
      SubmitManyFound(View(), tasks, arrayId);
      var entry := PlaceArray(tasks, arrayId);
      overrun := FinishArray(entry, arrayId);
    }

    /** Lines 191-207. */
    method FinishArray(entry: GwArray, arrayId: int) returns (overrun: bool)
      requires Valid() && 0 <= arrayId < arrays.Length && arrays[arrayId] == entry
      requires Filling(View(), arrayId, 0)
      modifies this`numberOfJobs, this`lastJobId, this`numberOfArrays, jobs, entry`lastTaskId, entry.jobIds
      ensures Valid() && (overrun ==> old(Fill(View(), arrayId, 0)).Overrun?)
      ensures !overrun ==> Done(View()) == old(Fill(View(), arrayId, 0))
    {
      overrun := FillArray(entry, arrayId);
      if !overrun {
        CountArray(arrayId);
      }
    }

    /** gw_array_pool_array_allocate; `overrun` when a scan reads past its table. */
    method AllocateArray(tasks: nat) returns (rc: int, arrayId: int, overrun: bool)
      requires Valid() && lastJobId >= -1 && lastArrayId >= -1
      modifies this, jobs, arrays
      ensures Valid() && (overrun <==> SubmitMany(old(View()), tasks).Overrun?)
      ensures match SubmitMany(old(View()), tasks)
              case Done(p) => rc == 0 && View() == p
              case Refused => rc == -1 && View() == old(View())
              case Overrun => true
      ensures !overrun && rc == 0 ==>
                arrayId >= 0 && Scan(old(Arrays()).Keys, arrays.Length, old(lastArrayId) + 1, 0) == Found(arrayId)
    {
      ghost var was := View();
      rc, arrayId, overrun := -1, -1, false;
      if tasks + numberOfJobs > jobs.Length {
        return;
      }
      var found;
      found, overrun, arrayId := ScanArrays();
      assert View() == was;
      if overrun || !found {
        return;
      }
      overrun := BuildArray(tasks, arrayId);
      rc := 0;
    }

    /** gw_array_pool_array_free; there is nothing to free when the slot is empty. */
    method FreeArray(arrayId: int)
      requires Valid()
      modifies this`numberOfArrays, arrays
      ensures Valid()
      ensures View() == if arrayId in old(View()).arrays
                        then old(View()).(arrays := old(View()).arrays - {arrayId}, arrayCount := old(numberOfArrays) - 1)
                        else old(View())
    {
      if 0 <= arrayId < arrays.Length {
        if arrays[arrayId] != null {
          numberOfArrays := numberOfArrays - 1;
          arrays[arrayId] := null;
        }
      }
      assert Arrays() == old(Arrays()) - {arrayId};
    }

    method DelTaskAt(arrayId: int, task: int) returns (remaining: int)
      requires Valid() && 0 <= arrayId < arrays.Length && arrays[arrayId] != null
      modifies Entries()
      ensures View() == old(View()).(arrays := old(Arrays())[arrayId := DelTask(old(Arrays())[arrayId], task)])
      ensures remaining == Remaining(DelTask(old(Arrays())[arrayId], task))
    {
      var entry := arrays[arrayId];
      remaining := entry.DelTask(task);
      assert forall k :: 0 <= k < arrays.Length && k != arrayId && arrays[k] != null ==>
        arrays[k].View() == old(arrays[k].View());
      assert Arrays() == old(Arrays())[arrayId := entry.View()];
    }

    /** gw_array_pool_get_array, gw_array_del_task and, with the last task,
        gw_array_pool_array_free. */
    method ReleaseTask(arrayId: int, task: int)
      requires Valid()
      modifies this`numberOfArrays, arrays, Entries()
      ensures Valid()
      ensures View() == if arrayId in old(View()).arrays then Release(old(View()), arrayId, task) else old(View())
    {
      if 0 <= arrayId < arrays.Length && arrays[arrayId] != null {
        var remaining := DelTaskAt(arrayId, task);
        UpdateThenRemove(old(Arrays()), arrayId, Arrays()[arrayId]);
        if remaining == 0 {
          FreeArray(arrayId);
        }
      }
    }

    /** The kill of a job in one of the states that leave nothing to cancel. */
    method KillJob(jobId: int)
      requires Valid()
      modifies this`numberOfArrays, jobs, arrays, Entries()
      ensures Valid()
      ensures View() == After(old(View()), KillOne(old(View()), jobId))
    {
      if 0 <= jobId < jobs.Length && jobs[jobId].Allocated? {
        var job := jobs[jobId].job;
        jobs[jobId] := Null;
        assert Jobs() == old(Jobs()) - {jobId};
        assert View() == old(View()).(jobs := old(View()).jobs - {jobId});
        if job.arrayId != -1 {
          ReleaseTask(job.arrayId, job.taskId);
        }
      }
    }
  }
}
