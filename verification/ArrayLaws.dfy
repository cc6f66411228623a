/** What the pools' tables hold after a run, told by the steps of the run: a job stays until it
is killed, an array as long as one of its jobs does, and a kill touches nothing else.
 */
module ArrayLaws {
  import opened ArrayPool

  // ---------- one step ----------

  /** Nothing of the pools changes but what a kill of a job of array `a` may. */
  predicate SameBut(s: Pools, s': Pools, a: int) {
    && s'.jobLimit == s.jobLimit && s'.jobCount == s.jobCount && s'.lastJob == s.lastJob
    && s'.arrayLimit == s.arrayLimit && s'.lastArray == s.lastArray
    && (forall b :: b in s'.arrays ==> b in s.arrays)
    && (forall b :: b in s.arrays && b != a ==> b in s'.arrays && s'.arrays[b] == s.arrays[b])
  }

  /** The task is deleted, and the others are as they were. */
  predicate TaskGone(entry: TaskArray, entry': TaskArray, task: int) {
    && entry'.id == entry.id && entry'.last == entry.last && entry'.freed == entry.freed + 1
    && |entry'.jobIds| == |entry.jobIds|
    && forall t :: 0 <= t < |entry.jobIds| ==> entry'.jobIds[t] == if t == task then -1 else entry.jobIds[t]
  }

  /** A kill of a job that exists takes it out of its table and its task out of its array, the
      array only with its last task, and changes nothing else. */
  lemma KillExactly(s: Pools, job: int)
    requires Inv(s)
    ensures KillOne(s, job) == Refused <==> job !in s.jobs
    ensures job in s.jobs ==>
              && KillOne(s, job).Done?
              && var s', a, task := KillOne(s, job).pools, s.jobs[job].arrayId, s.jobs[job].taskId;
                 && s'.jobs == s.jobs - {job} && SameBut(s, s', a)
                 && (a == -1 ==> s'.arrays == s.arrays)
                 && (a != -1 ==>
                       && a in s.arrays
                       && (a in s'.arrays <==> exists t :: t in Undeleted(s.arrays[a]) && t != task)
                       && (a in s'.arrays ==> TaskGone(s.arrays[a], s'.arrays[a], task)))
  {
    if job in s.jobs && s.jobs[job].arrayId != -1 {
      LastTask(s.arrays[s.jobs[job].arrayId], s.jobs[job].taskId);
    }
  }

  lemma LastTask(entry: TaskArray, task: int)
    requires Remaining(entry) == |Undeleted(entry)| && task in Undeleted(entry)
    ensures Remaining(DelTask(entry, task)) == 0 <==> !exists t :: t in Undeleted(entry) && t != task
  {
    var rest := Undeleted(entry) - {task};
    assert Remaining(DelTask(entry, task)) == |rest|;
    if t :| t in Undeleted(entry) && t != task {
      assert t in rest;
    } else {
      assert rest == {};
    }
  }

  /** A job submitted alone gets the next number and belongs to no array. */
  lemma JobSubmitted(s: Pools)
    requires TablesOk(s) && SubmitOne(s).Done?
    ensures SubmitOne(s).pools ==
              s.(jobs := s.jobs[s.lastJob + 1 := Job(-1, 0, 0)], jobCount := s.jobCount + 1, lastJob := s.lastJob + 1)
  {
    ScansFindNext(s);
  }

  /** What a step does to the jobs: those between the last number and the next are new, a killed
      one is gone, and the others are as they were. */
  ghost predicate JobsAfter(s: Pools, a: Action, s': Pools) {
    && s.lastJob <= s'.lastJob
    && (forall j :: j in s'.jobs <==> (j in s.jobs && a != Kill(j)) || s.lastJob < j <= s'.lastJob)
    && (forall j :: j in s.jobs && j in s'.jobs ==> s'.jobs[j] == s.jobs[j])
  }

  lemma StepOnJobs(s: Pools, a: Action)
    requires Inv(s) && Next(s, a).Done?
    ensures JobsAfter(s, a, Next(s, a).pools)
  {
    match a
    case SubmitJob => OneOnJobs(s);
    case SubmitArray(n) => ManyOnJobs(s, n);
    case Kill(job) => KillExactly(s, job);
  }

  lemma OneOnJobs(s: Pools)
    requires Inv(s) && SubmitOne(s).Done?
    ensures JobsAfter(s, SubmitJob, SubmitOne(s).pools)
  {
    JobSubmitted(s);
  }

  lemma ManyOnJobs(s: Pools, n: nat)
    requires Inv(s) && SubmitMany(s, n).Done?
    ensures JobsAfter(s, SubmitArray(n), SubmitMany(s, n).pools)
  {
    ManyGives(s, n);
    NewOnJobs(s.jobs, s.lastJob + 1, s.lastArray + 1, n);
  }

  lemma ManyGives(s: Pools, n: nat)
    requires Inv(s) && SubmitMany(s, n).Done?
    ensures SubmitMany(s, n).pools.jobs == NewJobs(s.jobs, s.lastJob + 1, s.lastArray + 1, n, n)
    ensures SubmitMany(s, n).pools.lastJob == s.lastJob + n
    ensures forall j :: j in s.jobs ==> 0 <= j <= s.lastJob
  {
    ArraySubmitted(s, n);
  }

  lemma NewOnJobs(jobs: map<int, Job>, base: int, a: int, n: nat)
    requires forall k :: k in jobs ==> k < base
    ensures var jobs' := NewJobs(jobs, base, a, n, n);
            && (forall j :: j in jobs' <==> j in jobs || base - 1 < j <= base - 1 + n)
            && (forall j :: j in jobs && j in jobs' ==> jobs'[j] == jobs[j])
  {
    forall j
      ensures j in NewJobs(jobs, base, a, n, n) <==> j in jobs || base <= j < base + n
      ensures j in jobs ==> NewJobs(jobs, base, a, n, n)[j] == jobs[j]
    {
      NewJobsAre(jobs, base, a, n, n, j);
    }
  }

  lemma NothingOnJobs(s: Pools, a: Action)
    requires Inv(s) && Next(s, a) == Refused
    ensures JobsAfter(s, a, s)
  {
    if a.Kill? {
      KillExactly(s, a.job);
    }
  }

  lemma RunOnJobs(states: seq<Pools>, actions: seq<Action>, i: nat)
    requires IsRun(states, actions) && i < |actions|
    ensures JobsAfter(states[i], actions[i], states[i + 1])
    ensures forall j :: j in states[i].jobs ==> 0 <= j <= states[i].lastJob
  {
    RunInv(states, actions, i);
    assert IsStep(states[i], actions[i], states[i + 1]);
    if Next(states[i], actions[i]).Done? {
      StepOnJobs(states[i], actions[i]);
    } else {
      NothingOnJobs(states[i], actions[i]);
    }
  }

  // ---------- runs ----------

  /** Some step before `i` killed the job after its number had been given. */
  ghost predicate KilledBefore(states: seq<Pools>, actions: seq<Action>, i: nat, job: int)
    requires i <= |actions| < |states|
  {
    exists k :: 0 <= k < i && actions[k] == Kill(job) && job <= states[k].lastJob
  }

  /** In every reachable state the jobs are those whose number has been given and that were not
      killed since. */
  lemma {:induction false} JobsAreThoseLeft(states: seq<Pools>, actions: seq<Action>, i: nat, job: int)
    requires IsRun(states, actions) && i < |states|
    ensures job in states[i].jobs <==> 0 <= job <= states[i].lastJob && !KilledBefore(states, actions, i, job)
  {
    if i > 0 {
      JobsAreThoseLeft(states, actions, i - 1, job);
      RunOnJobs(states, actions, i - 1);
      OneMoreKill(states, actions, i - 1, job);
      if states[i - 1].lastJob < job {
        NewIsNotKilled(states, actions, i - 1, job);
      }
    }
  }

  lemma NewIsNotKilled(states: seq<Pools>, actions: seq<Action>, i: nat, job: int)
    requires IsRun(states, actions) && i < |states| && states[i].lastJob < job
    ensures !KilledBefore(states, actions, i, job)
  {
    forall k | 0 <= k < i
      ensures states[k].lastJob < job
    {
      LastsGrow(states, actions, k, i);
    }
  }

  lemma OneMoreKill(states: seq<Pools>, actions: seq<Action>, i: nat, job: int)
    requires i < |actions| < |states|
    ensures KilledBefore(states, actions, i + 1, job) <==>
            KilledBefore(states, actions, i, job) || (actions[i] == Kill(job) && job <= states[i].lastJob)
  {
    if KilledBefore(states, actions, i, job) {
      var k :| 0 <= k < i && actions[k] == Kill(job) && job <= states[k].lastJob;
      assert actions[k] == Kill(job);
    }
  }

  /** A job keeps its array, its task and the number of tasks as long as it is there. */
  lemma {:induction false} JobsStay(states: seq<Pools>, actions: seq<Action>, i: nat, k: nat, job: int)
    requires IsRun(states, actions) && i <= k < |states| && job in states[i].jobs && job in states[k].jobs
    ensures states[k].jobs[job] == states[i].jobs[job]
    decreases k
  {
    if i < k {
      RunOnJobs(states, actions, k - 1);
      JobsAreThoseLeft(states, actions, i, job);
      LastsGrow(states, actions, i, k - 1);
      JobsStay(states, actions, i, k - 1, job);
    }
  }

  /** An array is in its table if and only if one of its jobs is in its own. */
  lemma ArraysAreThoseWithJobs(states: seq<Pools>, actions: seq<Action>, i: nat, a: int)
    requires IsRun(states, actions) && i < |states| && a != -1
    ensures a in states[i].arrays <==> exists j :: j in states[i].jobs && states[i].jobs[j].arrayId == a
  {
    RunInv(states, actions, i);
    var s := states[i];
    if a in s.arrays {
      var t :| t in Undeleted(s.arrays[a]);
      assert s.arrays[a].jobIds[t] in s.jobs;
    }
  }
}
