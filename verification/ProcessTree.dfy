/** `Job.jobCancel` of the fork manager (drm4g/managers/fork.py:49-58): killing a job's whole
process tree with `ps --ppid` and `kill -9`.

Killing a process gives its children to init, so the tree comes apart while it is being
walked; and the list that the inner loop walks is rebound inside it.  With no process
starting or ending by itself, exactly the tree is killed, every process once and after its
parent, and the process table is otherwise as before.
 */
module ProcessTree {
  import opened Basics

  type Pid = int

  /** The process that adopts orphans. */
  const INIT: Pid := 1

  /** The parent of each live process. */
  type Table = map<Pid, Pid>

  /** Processes have no cycles of parents: a process is deeper than its live parent. */
  ghost predicate Forest(table: Table, depth: map<Pid, nat>) {
    forall p :: p in table ==> p in depth && (table[p] in table ==> table[p] in depth && depth[table[p]] < depth[p])
  }

  /** `p` is `root` or one of its descendants. */
  ghost predicate Under(table: Table, depth: map<Pid, nat>, p: Pid, root: Pid)
    requires Forest(table, depth) && p in table
    decreases depth[p]
  {
    p == root || (table[p] in table && Under(table, depth, table[p], root))
  }

  ghost function Tree(table: Table, depth: map<Pid, nat>, root: Pid): set<Pid>
    requires Forest(table, depth)
  {
    set p | p in table && Under(table, depth, p, root)
  }

  lemma {:induction false} RemoveAfter<T>(s: seq<T>, x: T, t: seq<T>)
    requires x !in s
    ensures Remove(s + [x] + t, x) == s + t
  {
    var all := s + [x] + t;
    if s == [] {
      assert all[1..] == t;
      assert s + t == t;
    } else {
      assert all[1..] == s[1..] + [x] + t;
      RemoveAfter(s[1..], x, t);
      assert s + t == [s[0]] + (s[1..] + t);
    }
  }

  /** What is left of `table` when the processes `dead` are gone: orphans belong to init. */
  ghost function Survivors(table: Table, dead: set<Pid>): Table {
    map p | p in table && p !in dead :: if table[p] in dead then INIT else table[p]
  }

  // ---------- progress of the walk ----------

  /** `jobs` is the list of processes still to kill, `dead` those killed so far, in order, and
      `live` the process table. */
  ghost predicate Progress(live: Table, jobs: seq<Pid>, dead: seq<Pid>, table: Table, depth: map<Pid, nat>, root: Pid)
    requires Forest(table, depth)
  {
    && NoDuplicates(dead) && NoDuplicates(jobs)
    && Members(dead) !! Members(jobs)
    && Members(dead) + Members(jobs) <= Tree(table, depth, root)
    && root in Members(dead) + Members(jobs)
    && Frontier(Members(dead), Members(jobs), table, root)
    && live == Survivors(table, Members(dead))
    && ParentsFirst(dead, table, root)
  }

  /** What was reached has a dead parent, and the children of the dead were reached. */
  ghost predicate Frontier(dead: set<Pid>, jobs: set<Pid>, table: Table, root: Pid) {
    && (forall p :: p in dead + jobs && p != root ==> p in table && table[p] in dead)
    && (forall p :: p in table && table[p] in dead ==> p in dead + jobs)
  }

  lemma FrontierStep(dead: set<Pid>, jobs: set<Pid>, job: Pid, table: Table, root: Pid)
    requires Frontier(dead, jobs, table, root) && job in jobs
    ensures Frontier(dead + {job}, (set p | p in table && table[p] == job) + (jobs - {job}), table, root)
  {
  }

  /** Every process but the root was killed after its parent. */
  ghost predicate ParentsFirst(dead: seq<Pid>, table: Table, root: Pid) {
    forall i :: 0 <= i < |dead| && dead[i] != root ==> dead[i] in table && table[dead[i]] in Members(dead[..i])
  }

  lemma Start(table: Table, depth: map<Pid, nat>, root: Pid)
    requires Forest(table, depth) && root in table
    ensures Progress(table, [root], [], table, depth, root)
  {
    assert Members([root]) == {root};
    assert Survivors(table, {}) == table;
  }

  lemma {:induction false} Reached(p: Pid, dead: set<Pid>, table: Table, depth: map<Pid, nat>, root: Pid)
    requires Forest(table, depth) && p in table && Under(table, depth, p, root)
    requires root in dead && forall q :: q in table && table[q] in dead ==> q in dead
    ensures p in dead
    decreases depth[p]
  {
    if p != root {
      Reached(table[p], dead, table, depth, root);
    }
  }

  /** With nothing left to kill, the dead are the tree, and no survivor changed parents. */
  lemma Finish(live: Table, dead: seq<Pid>, table: Table, depth: map<Pid, nat>, root: Pid)
    requires Forest(table, depth) && Progress(live, [], dead, table, depth, root)
    ensures Members(dead) == Tree(table, depth, root)
    ensures live == map p | p in table && p !in Tree(table, depth, root) :: table[p]
  {
    forall p | p in Tree(table, depth, root)
      ensures p in Members(dead)
    {
      Reached(p, Members(dead), table, depth, root);
    }
  }

  lemma {:induction false} DeeperThanRoot(p: Pid, table: Table, depth: map<Pid, nat>, root: Pid)
    requires Forest(table, depth) && p in table && Under(table, depth, p, root)
    ensures root in table && depth[root] <= depth[p]
    decreases depth[p]
  {
    if p != root {
      DeeperThanRoot(table[p], table, depth, root);
    }
  }

  /** The live children of a process not yet killed are its original children, and none of
      them has been reached. */
  lemma ChildrenAreNew(live: Table, jobs: seq<Pid>, dead: seq<Pid>, table: Table, depth: map<Pid, nat>, root: Pid, job: Pid)
    requires Forest(table, depth) && Progress(live, jobs, dead, table, depth, root)
    requires INIT !in Tree(table, depth, root)
    requires job in Members(jobs)
    ensures job in live
    ensures (set p | p in live && live[p] == job) == (set p | p in table && table[p] == job)
    ensures forall p :: p in table && table[p] == job ==>
              p in Tree(table, depth, root) && p !in Members(dead) + Members(jobs) && p != job
  {
    forall p | p in table && table[p] == job
      ensures p in Tree(table, depth, root) && p !in Members(dead) + Members(jobs) && p != job
    {
      assert Under(table, depth, p, root);
      if p == root {
        DeeperThanRoot(job, table, depth, root);
      }
    }
  }

  lemma SurvivorsTwice(table: Table, dead: set<Pid>, job: Pid)
    requires INIT != job
    ensures Survivors(Survivors(table, dead), {job}) == Survivors(table, dead + {job})
  {
  }

  lemma ElementsConcat<T>(s: seq<T>, t: seq<T>)
    ensures Members(s + t) == Members(s) + Members(t)
  {
  }

  lemma DistinctConcat<T>(s: seq<T>, t: seq<T>)
    requires NoDuplicates(s) && NoDuplicates(t) && Members(s) !! Members(t)
    ensures NoDuplicates(s + t)
  {
    forall i, j | 0 <= i < j < |s + t|
      ensures (s + t)[i] != (s + t)[j]
    {
      if i < |s| <= j {
        assert (s + t)[i] in Members(s) && (s + t)[j] in Members(t);
      }
    }
  }

  /** What the sets of a step look like. */
  lemma StepSets(live: Table, jobs: seq<Pid>, rest: seq<Pid>, dead: seq<Pid>, job: Pid, children: seq<Pid>,
                 table: Table, depth: map<Pid, nat>, root: Pid)
    requires Forest(table, depth) && Progress(live, jobs, dead, table, depth, root)
    requires INIT !in Tree(table, depth, root)
    requires job in Members(jobs) && NoDuplicates(rest) && Members(rest) == Members(jobs) - {job}
    requires NoDuplicates(children) && Members(children) == set p | p in live && live[p] == job
    ensures NoDuplicates(children + rest) && NoDuplicates(dead + [job])
    ensures Members(children + rest) == (set p | p in table && table[p] == job) + (Members(jobs) - {job})
    ensures Members(dead + [job]) == Members(dead) + {job}
    ensures Members(children + rest) !! Members(dead + [job])
    ensures Members(children) <= Tree(table, depth, root)
    ensures Survivors(live, {job}) == Survivors(table, Members(dead + [job]))
  {
    ChildrenAreNew(live, jobs, dead, table, depth, root, job);
    ElementsConcat(children, rest);
    ElementsConcat(dead, [job]);
    assert Members([job]) == {job};
    DistinctConcat(children, rest);
    DistinctConcat(dead, [job]);
    SurvivorsTwice(table, Members(dead), job);
  }

  /** One job: its children join the list, in front, and it leaves list and table. */
  lemma Step(live: Table, jobs: seq<Pid>, rest: seq<Pid>, dead: seq<Pid>, job: Pid, children: seq<Pid>,
             table: Table, depth: map<Pid, nat>, root: Pid)
    requires Forest(table, depth) && Progress(live, jobs, dead, table, depth, root)
    requires INIT !in Tree(table, depth, root)
    requires job in Members(jobs) && NoDuplicates(rest) && Members(rest) == Members(jobs) - {job}
    requires NoDuplicates(children) && Members(children) == set p | p in live && live[p] == job
    ensures Progress(Survivors(live, {job}), children + rest, dead + [job], table, depth, root)
  {
    StepSets(live, jobs, rest, dead, job, children, table, depth, root);
    FrontierStep(Members(dead), Members(jobs), job, table, root);
    ParentsStep(dead, job, table, root);
  }

  lemma ParentsStep(dead: seq<Pid>, job: Pid, table: Table, root: Pid)
    requires ParentsFirst(dead, table, root)
    requires job != root ==> job in table && table[job] in Members(dead)
    ensures ParentsFirst(dead + [job], table, root)
  {
    var dead' := dead + [job];
    forall i | 0 <= i < |dead'| && dead'[i] != root
      ensures dead'[i] in table && table[dead'[i]] in Members(dead'[..i])
    {
      assert dead'[..i] == dead[..i];
      assert i == |dead| ==> dead[..i] == dead;
    }
  }

  /** One round of the inner loop, which takes `job` out of the middle of the list. */
  lemma Round(live: Table, found: seq<Pid>, job: Pid, rest: seq<Pid>, dead: seq<Pid>, children: seq<Pid>,
              table: Table, depth: map<Pid, nat>, root: Pid)
    requires Forest(table, depth) && Progress(live, found + [job] + rest, dead, table, depth, root)
    requires INIT !in Tree(table, depth, root)
    requires NoDuplicates(children) && Members(children) == set p | p in live && live[p] == job
    ensures job in live && |Survivors(live, {job})| < |live|
    ensures job in children + (found + [job] + rest)
    ensures Remove(children + (found + [job] + rest), job) == children + found + rest
    ensures Progress(Survivors(live, {job}), children + found + rest, dead + [job], table, depth, root)
  {
    var jobs, others := found + [job] + rest, found + rest;
    assert jobs[|found|] == job;
    ChildrenAreNew(live, jobs, dead, table, depth, root, job);
    assert job !in Members(children);
    TakenOut(found, job, rest);
    RemoveFromList(children, found, job, rest);
    Step(live, jobs, others, dead, job, children, table, depth, root);
    SurvivorsFewer(live, job);
  }

  lemma SurvivorsFewer(live: Table, job: Pid)
    requires job in live
    ensures |Survivors(live, {job})| < |live|
  {
    assert Survivors(live, {job}).Keys == live.Keys - {job};
    assert |live.Keys - {job}| < |live.Keys|;
  }

  lemma RemoveFromList<T>(children: seq<T>, found: seq<T>, job: T, rest: seq<T>)
    requires job !in children && job !in found
    ensures job in children + (found + [job] + rest)
    ensures Remove(children + (found + [job] + rest), job) == children + found + rest == children + (found + rest)
  {
    assert children + (found + [job] + rest) == (children + found) + [job] + rest;
    assert ((children + found) + [job] + rest)[|children + found|] == job;
    RemoveAfter(children + found, job, rest);
  }

  lemma ListSplit<T>(found: seq<T>, walked: seq<T>, i: nat)
    requires i < |walked|
    ensures found + walked[i..] == found + [walked[i]] + walked[i + 1..]
  {
  }

  lemma TakenOut<T>(found: seq<T>, job: T, rest: seq<T>)
    requires NoDuplicates(found + [job] + rest)
    ensures NoDuplicates(found + rest) && Members(found + rest) == Members(found + [job] + rest) - {job}
    ensures job !in found
  {
    var all, others := found + [job] + rest, found + rest;
    assert all[|found|] == job;
    forall i | 0 <= i < |others|
      ensures others[i] == all[if i < |found| then i else i + 1]
    {
    }
    forall i | 0 <= i < |all| && i != |found|
      ensures all[i] == others[if i < |found| then i else i - 1]
    {
    }
  }

  class Host {
    var parent: Table
    ghost var killed: seq<Pid>  // in the order in which they were killed

    /** `ps ho pid --ppid job`, in any order. */
    method Children(job: Pid) returns (out: seq<Pid>)
      ensures NoDuplicates(out)
      ensures Members(out) == set p | p in parent && parent[p] == job
    {
      out := [];
      var todo := set p | p in parent && parent[p] == job;
      ghost var all := todo;
      while todo != {}
        invariant NoDuplicates(out)
        invariant Members(out) + todo == all && Members(out) !! todo
        decreases todo
      {
        assert exists p :: p in todo by {
          assert (forall p :: p !in todo) ==> todo == {};
        }
        var p: Pid :| p in todo;
        assert Members([p]) == {p};
        ElementsConcat(out, [p]);
        DistinctConcat(out, [p]);
        out := out + [p];
        todo := todo - {p};
      }
    }

    /** `kill -9 job`; fails if there is no such process. */
    method Kill(job: Pid) returns (err: bool)
      modifies this
      ensures err == (job !in old(parent))
      ensures err ==> parent == old(parent) && killed == old(killed)
      ensures !err ==> parent == Survivors(old(parent), {job}) && killed == old(killed) + [job]
    {
      if job !in parent {
        return true;
      }
      parent := map p | p in parent && p != job :: if parent[p] == job then INIT else parent[p];
      killed := killed + [job];
      err := false;
    }

    /** Kills exactly the tree below `jobId`, each process once and after its parent; what
        survives keeps its parent.  Raises, and changes nothing, if there is no such job. */
    method JobCancel(jobId: Pid, ghost depth: map<Pid, nat>) returns (raised: bool)
      requires Forest(parent, depth)
      requires INIT !in Tree(parent, depth, jobId)
      requires killed == []
      modifies this
      ensures raised == (jobId !in old(parent))
      ensures raised ==> parent == old(parent) && killed == []
      ensures !raised ==>
                && NoDuplicates(killed)
                && Members(killed) == Tree(old(parent), depth, jobId)
                && ParentsFirst(killed, old(parent), jobId)
                && parent == map p | p in old(parent) && p !in Tree(old(parent), depth, jobId) :: old(parent)[p]
    {
      ghost var table := parent;
      var jobsToKill := [jobId];
      if jobId in table {
        Start(table, depth, jobId);
      }
      while jobsToKill != []
        invariant Walking(jobsToKill, table, depth, jobId)
        decreases |parent|
      {
        jobsToKill, raised := Walk(jobsToKill, table, depth, jobId);
        if raised {
          return;
        }
      }
      if jobId in table {
        Finish(parent, killed, table, depth, jobId);
      }
      raised := false;
    }

    /** The inner loop: it walks the list as it is now, whatever the name is bound to later. */
    method Walk(walked: seq<Pid>, ghost table: Table, ghost depth: map<Pid, nat>, ghost root: Pid)
      returns (jobsToKill: seq<Pid>, raised: bool)
      requires Forest(table, depth) && INIT !in Tree(table, depth, root)
      requires walked != [] && Walking(walked, table, depth, root)
      modifies this
      ensures raised == (root !in table)
      ensures raised ==> parent == old(parent) && killed == old(killed)
      ensures !raised ==> Walking(jobsToKill, table, depth, root) && |parent| < |old(parent)|
    {
      jobsToKill := walked;
      ghost var found := [];
      for i := 0 to |walked|
        invariant jobsToKill == found + walked[i..]
        invariant Walking(jobsToKill, table, depth, root)
        invariant i == 0 ==> parent == old(parent) && killed == old(killed)
        invariant i > 0 ==> root in table && |parent| < |old(parent)|
      {
        ListSplit(found, walked, i);
        var children, err := KillOne(walked[i], found, walked[i + 1..], table, depth, root);
        jobsToKill := children + jobsToKill;
        if err {
          return jobsToKill, true;
        }
        jobsToKill := Remove(jobsToKill, walked[i]);
        found := children + found;
      }
      raised := false;
    }

    /** The two commands of a round: list the children of `job`, then kill it. */
    method KillOne(job: Pid, ghost found: seq<Pid>, ghost rest: seq<Pid>, ghost table: Table, ghost depth: map<Pid, nat>, ghost root: Pid)
      returns (children: seq<Pid>, err: bool)
      requires Forest(table, depth) && INIT !in Tree(table, depth, root)
      requires Walking(found + [job] + rest, table, depth, root)
      modifies this
      ensures err == (root !in table)
      ensures err ==> parent == old(parent) && killed == old(killed)
      ensures !err ==> |parent| < |old(parent)|
      ensures !err ==> job in children + (found + [job] + rest)
      ensures !err ==> Remove(children + (found + [job] + rest), job) == children + found + rest
      ensures !err ==> Walking(children + found + rest, table, depth, root)
    {
      children := Children(job);
      if root in table {
        Round(parent, found, job, rest, killed, children, table, depth, root);
      } else {
        assert (found + [job] + rest)[|found|] == job;
      }
      err := Kill(job);
    }

    ghost predicate Walking(jobs: seq<Pid>, table: Table, depth: map<Pid, nat>, root: Pid)
      reads this
      requires Forest(table, depth)
    {
      if root in table then Progress(parent, jobs, killed, table, depth, root)
      else parent == table && killed == [] && jobs == [root]
    }
  }
}
