/** The client's copy of the job table: how it is filled from the daemon's answers
(gridway-5.8/src/client/gw_client_job_status.c:194-321) and how the client of an array
submission rebuilds the table from tasks to jobs out of it
(gridway-5.8/src/client/gw_client_submit.c:358-366).

The answers arrive in any order; the two loops together must give the array's own `job_ids`.
 */
module ClientPool {
  import opened ArrayPool

  datatype JobState =
    | INIT | PENDING | HOLD | PROLOG | PRE_WRAPPER | WRAPPER | EPILOG | EPILOG_STD | EPILOG_RESTART | EPILOG_FAIL
    | STOP_CANCEL | STOP_EPILOG | STOPPED | KILL_CANCEL | KILL_EPILOG | MIGR_CANCEL | MIGR_PROLOG | MIGR_EPILOG
    | ZOMBIE | FAILED | LIMIT

  /** The place of the state in gw_job_state_t (gridway-5.8/include/gw_job.h:71-91). */
  function Place(s: JobState): (n: nat)
    ensures n <= 20
  {
    match s
    case INIT => 0
    case PENDING => 1
    case HOLD => 2
    case PROLOG => 3
    case PRE_WRAPPER => 4
    case WRAPPER => 5
    case EPILOG => 6
    case EPILOG_STD => 7
    case EPILOG_RESTART => 8
    case EPILOG_FAIL => 9
    case STOP_CANCEL => 10
    case STOP_EPILOG => 11
    case STOPPED => 12
    case KILL_CANCEL => 13
    case KILL_EPILOG => 14
    case MIGR_CANCEL => 15
    case MIGR_PROLOG => 16
    case MIGR_EPILOG => 17
    case ZOMBIE => 18
    case FAILED => 19
    case LIMIT => 20
  }

  datatype ClientJob = ClientJob(id: nat, arrayId: int, taskId: int, state: JobState)

  datatype Entry = Null | Known(job: ClientJob)

  // ---------- filling the table ----------

  function Stored(size: nat, messages: seq<ClientJob>): (pool: seq<Entry>)
    ensures |pool| == size
  {
    if messages == [] then seq(size, _ => Null)
    else
      var m := messages[|messages| - 1];
      var pool := Stored(size, messages[..|messages| - 1]);
      if m.id < size then pool[m.id := Known(m)] else pool
  }

  method ReceiveAll(pool: array<Entry>, messages: seq<ClientJob>)
    modifies pool
    ensures pool[..] == Stored(pool.Length, messages)
  {
    for i := 0 to pool.Length
      invariant forall k :: 0 <= k < i ==> pool[k] == Null
    {
      pool[i] := Null;
    }
    assert pool[..] == Stored(pool.Length, messages[..0]);
    for i := 0 to |messages|
      invariant pool[..] == Stored(pool.Length, messages[..i])
    {
      assert messages[..i + 1][..i] == messages[..i];
      if messages[i].id < pool.Length {
        pool[messages[i].id] := Known(messages[i]);
      }
    }
    assert messages[..|messages|] == messages;
  }

  /** An entry holds an answer about its own number. */
  lemma {:induction false} StoredAtOwnId(size: nat, messages: seq<ClientJob>, i: nat)
    requires i < size
    ensures var e := Stored(size, messages)[i]; e.Known? ==> e.job.id == i && e.job in messages
    ensures (exists m :: m in messages && m.id == i) ==> Stored(size, messages)[i].Known?
    decreases |messages|
  {
    if messages != [] {
      StoredAtOwnId(size, messages[..|messages| - 1], i);
      forall m | m in messages && m.id == i
        ensures m == messages[|messages| - 1] || m in messages[..|messages| - 1]
      {
      }
    }
  }

  /** Message `k` is the last one about number `i`. */
  predicate LastAbout(messages: seq<ClientJob>, i: nat, k: nat) {
    k < |messages| && messages[k].id == i && forall m :: k < m < |messages| ==> messages[m].id != i
  }

  /** Of several answers about one number the last one is stored. */
  lemma {:induction false} StoredIsLast(size: nat, messages: seq<ClientJob>, i: nat, k: nat)
    requires i < size && LastAbout(messages, i, k)
    ensures Stored(size, messages)[i] == Known(messages[k])
    decreases |messages|
  {
    if k < |messages| - 1 {
      assert LastAbout(messages[..|messages| - 1], i, k);
      StoredIsLast(size, messages[..|messages| - 1], i, k);
    }
  }

  // ---------- rebuilding the task table ----------

  predicate OfArray(e: Entry, arrayId: int) {
    e.Known? && e.job.arrayId == arrayId
  }

  function Rebuilt(ids: seq<int>, pool: seq<Entry>, arrayId: int): (r: seq<int>)
    ensures |r| == |ids|
  {
    if pool == [] then ids
    else
      var e := pool[|pool| - 1];
      var r := Rebuilt(ids, pool[..|pool| - 1], arrayId);
      if OfArray(e, arrayId) && 0 <= e.job.taskId < |ids| then r[e.job.taskId := e.job.id] else r
  }

  /** The entry's task number lies outside a table of `n` entries. */
  predicate Misfits(e: Entry, arrayId: int, n: nat) {
    OfArray(e, arrayId) && !(0 <= e.job.taskId < n)
  }

  /** The loop at lines 362-366, which writes wherever the task numbers say: `overrun` when one
      of them lies outside the table. */
  method RebuildJobIds(pool: array<Entry>, arrayId: int, jobIds: array<int>) returns (overrun: bool)
    modifies jobIds
    ensures overrun <==> exists i :: 0 <= i < pool.Length && Misfits(pool[i], arrayId, jobIds.Length)
    ensures !overrun ==> jobIds[..] == Rebuilt(old(jobIds[..]), pool[..], arrayId)
  {
    for i := 0 to pool.Length
      invariant jobIds[..] == Rebuilt(old(jobIds[..]), pool[..i], arrayId)
      invariant forall k :: 0 <= k < i ==> !Misfits(pool[k], arrayId, jobIds.Length)
    {
      assert pool[..i + 1][..i] == pool[..i];
      if pool[i].Known? && pool[i].job.arrayId == arrayId {
        if !(0 <= pool[i].job.taskId < jobIds.Length) {
          return true;
        }
        jobIds[pool[i].job.taskId] := pool[i].job.id;
      }
    }
    assert pool[..pool.Length] == pool[..];
    overrun := false;
  }

  lemma {:induction false} RebuiltAt(ids: seq<int>, pool: seq<Entry>, arrayId: int, t: nat, v: int)
    requires t < |ids|
    requires forall e :: e in pool && OfArray(e, arrayId) && e.job.taskId == t ==> e.job.id == v
    ensures Rebuilt(ids, pool, arrayId)[t]
         == if exists e :: e in pool && OfArray(e, arrayId) && e.job.taskId == t then v else ids[t]
    decreases |pool|
  {
    if pool != [] {
      var e, rest := pool[|pool| - 1], pool[..|pool| - 1];
      RebuiltAt(ids, rest, arrayId, t, v);
      assert forall x :: x in pool <==> x in rest || x == e;
    }
  }

  /** Whatever the pool holds: of several entries of the array with one task the last one gives
      the job. */
  lemma {:induction false} RebuiltIsLast(ids: seq<int>, pool: seq<Entry>, arrayId: int, t: nat, k: nat)
    requires t < |ids| && k < |pool| && OfArray(pool[k], arrayId) && pool[k].job.taskId == t
    requires forall m :: k < m < |pool| && OfArray(pool[m], arrayId) ==> pool[m].job.taskId != t
    ensures Rebuilt(ids, pool, arrayId)[t] == pool[k].job.id
    decreases |pool|
  {
    if k < |pool| - 1 {
      RebuiltIsLast(ids, pool[..|pool| - 1], arrayId, t, k);
    }
  }

  // ---------- the client's table and the daemon's ----------

  /** The answers to a status request: one for every job of the daemon, in any order. */
  ghost predicate Answers(messages: seq<ClientJob>, s: Pools) {
    && (forall m :: m in messages ==> m.id in s.jobs && m.arrayId == s.jobs[m.id].arrayId && m.taskId == s.jobs[m.id].taskId)
    && (forall j :: j in s.jobs ==> exists m :: m in messages && m.id == j)
  }

  lemma StoredMirrors(s: Pools, messages: seq<ClientJob>, i: nat)
    requires Inv(s) && Answers(messages, s) && i < s.jobLimit
    ensures var e := Stored(s.jobLimit, messages)[i];
            && (e.Known? <==> i in s.jobs)
            && (e.Known? ==> e.job.id == i && e.job.arrayId == s.jobs[i].arrayId && e.job.taskId == s.jobs[i].taskId)
  {
    StoredAtOwnId(s.jobLimit, messages, i);
    if Stored(s.jobLimit, messages)[i].Known? {
      assert Stored(s.jobLimit, messages)[i].job in messages;
    }
  }

  /** An entry of the client's table about task `t` of array `a`. */
  lemma EntryOfTask(s: Pools, messages: seq<ClientJob>, a: int, t: nat, e: Entry)
    requires Inv(s) && Answers(messages, s) && a in s.arrays && t < |s.arrays[a].jobIds|
    requires e in Stored(s.jobLimit, messages) && OfArray(e, a) && e.job.taskId == t
    ensures e.job.id == s.arrays[a].jobIds[t] && t in Undeleted(s.arrays[a])
  {
    var pool := Stored(s.jobLimit, messages);
    var i :| 0 <= i < |pool| && pool[i] == e;
    StoredMirrors(s, messages, i);
  }

  lemma RebuildsTask(s: Pools, messages: seq<ClientJob>, a: int, ids: seq<int>, t: nat)
    requires Inv(s) && Answers(messages, s) && a in s.arrays && t < |ids| == |s.arrays[a].jobIds|
    ensures Rebuilt(ids, Stored(s.jobLimit, messages), a)[t]
         == if t in Undeleted(s.arrays[a]) then s.arrays[a].jobIds[t] else ids[t]
  {
    var pool, job := Stored(s.jobLimit, messages), s.arrays[a].jobIds[t];
    forall e | e in pool && OfArray(e, a) && e.job.taskId == t
      ensures e.job.id == job && t in Undeleted(s.arrays[a])
    {
      EntryOfTask(s, messages, a, t, e);
    }
    RebuiltAt(ids, pool, a, t, job);
    if t in Undeleted(s.arrays[a]) {
      assert job in s.jobs;
      StoredMirrors(s, messages, job);
      assert OfArray(pool[job], a) && pool[job].job.taskId == t;
    }
  }

  /** In every reachable state, whatever the order of the answers, the client's scan writes
      within its table and gives every undeleted task its job; the other entries it leaves. */
  lemma ClientRebuilds(states: seq<Pools>, actions: seq<Action>, i: nat, messages: seq<ClientJob>, a: int, ids: seq<int>)
    requires IsRun(states, actions) && i < |states| && Answers(messages, states[i])
    requires a in states[i].arrays && |ids| == |states[i].arrays[a].jobIds|
    ensures var s, pool := states[i], Stored(states[i].jobLimit, messages);
            && (forall k :: 0 <= k < |pool| && OfArray(pool[k], a) ==> 0 <= pool[k].job.taskId < |ids|)
            && (forall k :: 0 <= k < |pool| ==> !Misfits(pool[k], a, |ids|))
            && (forall t :: 0 <= t < |ids| ==>
                  Rebuilt(ids, pool, a)[t] == if t in Undeleted(s.arrays[a]) then s.arrays[a].jobIds[t] else ids[t])
  {
    RunInv(states, actions, i);
    var s, pool := states[i], Stored(states[i].jobLimit, messages);
    forall k | 0 <= k < |pool| && OfArray(pool[k], a)
      ensures 0 <= pool[k].job.taskId < |ids|
    {
      StoredMirrors(s, messages, k);
    }
    forall t | 0 <= t < |ids|
      ensures Rebuilt(ids, pool, a)[t] == if t in Undeleted(s.arrays[a]) then s.arrays[a].jobIds[t] else ids[t]
    {
      RebuildsTask(s, messages, a, ids, t);
    }
  }

  lemma FreshArray(s: Pools, n: nat)
    requires Inv(s) && SubmitMany(s, n).Done?
    ensures var s', a := SubmitMany(s, n).pools, s.lastArray + 1;
            && a in s'.arrays && s'.arrays[a].jobIds == seq(n, t => s.lastJob + 1 + t)
            && s'.jobLimit == s.jobLimit
  {
    ArraySubmitted(s, n);
    assert Numbers(s.lastJob + 1, n, n) == seq(n, t => s.lastJob + 1 + t);
  }

  /** Right after the submission the client has the array's table exactly: the `n` job numbers
      that follow the last one given before. */
  lemma FreshArrayRebuilt(states: seq<Pools>, actions: seq<Action>, k: nat, n: nat, messages: seq<ClientJob>, ids: seq<int>)
    requires IsRun(states, actions) && k < |actions|
    requires IsStep(states[k], actions[k], states[k + 1]) && actions[k] == SubmitArray(n) && SubmitMany(states[k], n).Done?
    requires Answers(messages, states[k + 1]) && |ids| == n
    ensures Rebuilt(ids, Stored(states[k + 1].jobLimit, messages), states[k].lastArray + 1)
         == seq(n, t => states[k].lastJob + 1 + t)
  {
    RunInv(states, actions, k);
    var a, expected := states[k].lastArray + 1, seq(n, t => states[k].lastJob + 1 + t);
    FreshArray(states[k], n);
    ClientRebuilds(states, actions, k + 1, messages, a, ids);
    var r := Rebuilt(ids, Stored(states[k + 1].jobLimit, messages), a);
    forall t | 0 <= t < n
      ensures r[t] == expected[t]
    {
      assert t in Undeleted(states[k + 1].arrays[a]);
    }
  }
}
