/** Waiting for a set of jobs (gridway-5.8/src/client/gw_client_wait.c:165-263,328-446). The job
numbers are an array ended by -1; with a zero timeout each job's status is asked for once, in
order, and otherwise one reply per job arrives, in any order.

What comes over the socket is a parameter: the answers to status requests, and the events of
the reply loop.
 */
module ClientWait {
  import opened Basics
  import opened ClientPool

  datatype Rc = SUCCESS | FAILED_TIMEOUT | FAILED_CONNECTION | OTHER(code: int)

  /** The answer to one status request. */
  datatype Status = Status(rc: Rc, state: JobState, exitCode: int)

  predicate Finished(a: Status) { a.rc == SUCCESS && a.state in {ZOMBIE, FAILED} }

  predicate Unfinished(a: Status) { a.rc == SUCCESS && a.state !in {ZOMBIE, FAILED} }

  /** Of the states between the first and LIMIT the last two are the ends of a job; every answer
      tells of an error, of an end, or of a state before. */
  lemma EndsOfJobs(a: Status)
    ensures Finished(a) <==> a.rc == SUCCESS && Place(ZOMBIE) <= Place(a.state) <= Place(FAILED)
    ensures Unfinished(a) <==> a.rc == SUCCESS && (Place(a.state) < Place(ZOMBIE) || Place(a.state) == Place(LIMIT))
  {
  }

  /** What ends one turn of the reply loop. */
  datatype Event = Reply(rc: Rc, jobId: int, exitCode: int) | TimedOut | Broken

  predicate Terminated(jobIds: seq<int>) { -1 in jobIds }

  /** The jobs before the -1. */
  function Jobs(jobIds: seq<int>): (jobs: seq<int>)
    requires Terminated(jobIds)
    ensures |jobs| < |jobIds| && jobs == jobIds[..|jobs|] && jobIds[|jobs|] == -1 && -1 !in jobs
  {
    if jobIds[0] == -1 then [] else [jobIds[0]] + Jobs(jobIds[1..])
  }

  lemma {:induction false} JobsPrefix(jobIds: seq<int>, i: nat)
    requires Terminated(jobIds) && i < |jobIds| && -1 !in jobIds[..i]
    ensures i <= |Jobs(jobIds)| && (jobIds[i] == -1 <==> i == |Jobs(jobIds)|)
  {
    assert forall k :: 0 <= k < i ==> jobIds[k] in jobIds[..i];
    assert forall k :: 0 <= k < |Jobs(jobIds)| ==> jobIds[k] in Jobs(jobIds);
  }

  // ---------- zero timeout ----------

  /** gw_client_test_job; the caller stores the exit code of a finished job. */
  method TestJob(answer: Status) returns (rc: Rc, finished: bool)
    ensures rc == answer.rc && (rc == SUCCESS ==> finished == Finished(answer))
  {
    finished := false;
    if answer.rc != SUCCESS {
      return answer.rc, finished;
    }
    finished := answer.state == ZOMBIE || answer.state == FAILED;
    rc := SUCCESS;
  }

  /** The first answer that ends the scan for any finished job. */
  predicate FirstTelling(answers: seq<Status>, n: nat, k: nat) {
    k < n <= |answers| && !Unfinished(answers[k]) && forall i :: 0 <= i < k ==> Unfinished(answers[i])
  }

  /** Wait-any with a zero timeout: success with the first finished job, put in the place of
      the first, if no answer before it is an error; an error ends the scan. */
  method TestAny(jobIds: array<int>, answers: seq<Status>) returns (rc: Rc, exitCodes: array<int>)
    requires Terminated(jobIds[..]) && |answers| >= |Jobs(jobIds[..])|
    modifies jobIds
    ensures fresh(exitCodes) && exitCodes.Length == 1
    ensures rc == SUCCESS <==>
            exists k: nat :: FirstTelling(answers, |old(Jobs(jobIds[..]))|, k) && Finished(answers[k])
    ensures forall k: nat :: FirstTelling(answers, |old(Jobs(jobIds[..]))|, k) ==>
              if answers[k].rc != SUCCESS then rc == answers[k].rc && jobIds[..] == old(jobIds[..])
              else exitCodes[0] == answers[k].exitCode && jobIds[..] == old(jobIds[..])[0 := old(jobIds[k])]
    ensures (forall k :: 0 <= k < |old(Jobs(jobIds[..]))| ==> Unfinished(answers[k])) ==>
              rc == FAILED_TIMEOUT && jobIds[..] == old(jobIds[..])
  {
    ghost var n := |Jobs(jobIds[..])|;
    exitCodes := new int[1];
    var i := 0;
    JobsPrefix(jobIds[..], 0);
    while jobIds[i] != -1
      invariant 0 <= i <= n && jobIds[..] == old(jobIds[..]) && (jobIds[i] == -1 <==> i == n)
      invariant forall k :: 0 <= k < i ==> Unfinished(answers[k])
      decreases n - i
    {
      var finished;
      rc, finished := TestJob(answers[i]);
      assert rc != SUCCESS || finished ==> forall k: nat :: FirstTelling(answers, n, k) <==> k == i;
      if rc != SUCCESS {
        return rc, exitCodes;
      } else if finished {
        exitCodes[0] := answers[i].exitCode;
        jobIds[0] := jobIds[i];
        return SUCCESS, exitCodes;
      }
      i := i + 1;
      assert -1 !in jobIds[..i] by { assert jobIds[..i] == Jobs(jobIds[..])[..i]; }
      JobsPrefix(jobIds[..], i);
    }
    rc := FAILED_TIMEOUT;
  }

  /** The counting loop at lines 243-244. */
  method CountJobs(jobIds: array<int>) returns (n: nat)
    requires Terminated(jobIds[..])
    ensures n == |Jobs(jobIds[..])|
  {
    n := 0;
    JobsPrefix(jobIds[..], 0);
    while jobIds[n] != -1
      invariant n <= |Jobs(jobIds[..])| && (jobIds[n] == -1 <==> n == |Jobs(jobIds[..])|)
      decreases |Jobs(jobIds[..])| - n
    {
      n := n + 1;
      assert -1 !in jobIds[..n] by { assert jobIds[..n] == Jobs(jobIds[..])[..n]; }
      JobsPrefix(jobIds[..], n);
    }
  }

  /** Wait-all with a zero timeout: success exactly when every job is finished, and then every
      job has its exit code; otherwise the first job that is not decides. */
  method TestAll(jobIds: array<int>, answers: seq<Status>) returns (rc: Rc, exitCodes: array<int>)
    requires Terminated(jobIds[..]) && |answers| >= |Jobs(jobIds[..])|
    ensures fresh(exitCodes) && exitCodes.Length == |Jobs(jobIds[..])|
    ensures rc == SUCCESS <==> forall k :: 0 <= k < exitCodes.Length ==> Finished(answers[k])
    ensures forall k :: 0 <= k < exitCodes.Length && (forall i :: 0 <= i <= k ==> Finished(answers[i])) ==>
              exitCodes[k] == answers[k].exitCode
    ensures forall k :: 0 <= k < exitCodes.Length && !Finished(answers[k]) && (forall i :: 0 <= i < k ==> Finished(answers[i])) ==>
              rc == if answers[k].rc != SUCCESS then answers[k].rc else FAILED_TIMEOUT
  {
    var n := CountJobs(jobIds);
    exitCodes := new int[n];
    for j := 0 to n
      invariant forall k :: 0 <= k < j ==> Finished(answers[k]) && exitCodes[k] == answers[k].exitCode
    {
      var finished;
      rc, finished := TestJob(answers[j]);
      if rc != SUCCESS {
        return rc, exitCodes;
      }
      if !finished {
        return FAILED_TIMEOUT, exitCodes;
      }
      exitCodes[j] := answers[j].exitCode;
    }
    rc := SUCCESS;
  }

  // ---------- the reply loop ----------

  /** The slot a reply is recorded in: the first job with its number. */
  function Slot(jobs: seq<int>, jobId: int): (k: nat)
    ensures k <= |jobs| && (forall m :: 0 <= m < k ==> jobs[m] != jobId) && (k < |jobs| ==> jobs[k] == jobId)
  {
    if jobs == [] || jobs[0] == jobId then 0 else 1 + Slot(jobs[1..], jobId)
  }

  function Record(jobs: seq<int>, codes: seq<int>, e: Event): (r: seq<int>)
    requires |codes| == |jobs|
    ensures |r| == |codes|
  {
    if e.Reply? && e.rc == SUCCESS && e.jobId in jobs then codes[Slot(jobs, e.jobId) := e.exitCode] else codes
  }

  function Gather(jobs: seq<int>, codes: seq<int>, events: seq<Event>): (r: seq<int>)
    requires |codes| == |jobs|
    ensures |r| == |codes|
  {
    if events == [] then codes
    else Record(jobs, Gather(jobs, codes, events[..|events| - 1]), events[|events| - 1])
  }

  /** The return code after these replies: that of the last one that failed. */
  function Verdict(events: seq<Event>): Rc {
    if events == [] then SUCCESS
    else
      var e := events[|events| - 1];
      if e.Reply? && e.rc != SUCCESS then e.rc else Verdict(events[..|events| - 1])
  }

  predicate AllReplies(events: seq<Event>) {
    forall k :: 0 <= k < |events| ==> events[k].Reply?
  }

  /** The search at lines 433-438. */
  method RecordReply(jobIds: array<int>, n: nat, exitCodes: array<int>, jobId: int, exitCode: int)
    requires n <= jobIds.Length && exitCodes.Length == n && exitCodes != jobIds
    modifies exitCodes
    ensures exitCodes[..] == Record(jobIds[..n], old(exitCodes[..]), Reply(SUCCESS, jobId, exitCode))
  {
    for k := 0 to n
      invariant exitCodes[..] == old(exitCodes[..]) && jobId !in jobIds[..k]
    {
      if jobIds[k] == jobId {
        SlotAt(jobIds[..n], jobId, k);
        exitCodes[k] := exitCode;
        return;
      }
    }
  }

  lemma SlotAt(jobs: seq<int>, jobId: int, k: nat)
    requires k < |jobs| && jobs[k] == jobId && jobId !in jobs[..k]
    ensures Slot(jobs, jobId) == k
  {
    var s := Slot(jobs, jobId);
    assert forall m :: 0 <= m < k ==> jobs[m] in jobs[..k];
  }

  /** How many replies come before anything else does. */
  function Heard(events: seq<Event>): (n: nat)
    ensures n <= |events| && (forall k :: 0 <= k < n ==> events[k].Reply?) && (n < |events| ==> !events[n].Reply?)
  {
    if events == [] || !events[0].Reply? then 0 else 1 + Heard(events[1..])
  }

  lemma HeardIs(events: seq<Event>, n: nat)
    requires n <= |events| && AllReplies(events[..n]) && (n < |events| ==> !events[n].Reply?)
    ensures Heard(events) == n
  {
    var h := Heard(events);
    assert forall k :: 0 <= k < n ==> events[..n][k] == events[k];
  }

  function Ending(events: seq<Event>): Rc {
    var n := Heard(events);
    if n == |events| then Verdict(events) else if events[n].TimedOut? then FAILED_TIMEOUT else FAILED_CONNECTION
  }

  /** Event `k` is the first that is not a reply. */
  predicate FirstSilence(events: seq<Event>, k: nat) {
    k < |events| && !events[k].Reply? && AllReplies(events[..k])
  }

  /** Event `k` is the last reply that tells of a failure. */
  predicate LastFailure(events: seq<Event>, k: nat) {
    k < |events| && events[k].Reply? && events[k].rc != SUCCESS
    && forall m :: k < m < |events| && events[m].Reply? ==> events[m].rc == SUCCESS
  }

  /** The return code of the wait: if not only replies come, what the first other event is;
      otherwise the code of the last failed reply, or success without one. */
  ghost predicate Returns(events: seq<Event>, rc: Rc) {
    && (forall k: nat :: FirstSilence(events, k) && events[k].TimedOut? ==> rc == FAILED_TIMEOUT)
    && (forall k: nat :: FirstSilence(events, k) && events[k].Broken? ==> rc == FAILED_CONNECTION)
    && (AllReplies(events) ==>
          && (forall k: nat :: LastFailure(events, k) ==> rc == events[k].rc)
          && ((forall k :: 0 <= k < |events| ==> events[k].rc == SUCCESS) ==> rc == SUCCESS))
  }

  lemma {:induction false} VerdictAt(events: seq<Event>, k: nat)
    requires LastFailure(events, k)
    ensures Verdict(events) == events[k].rc
    decreases |events|
  {
    if k < |events| - 1 {
      VerdictAt(events[..|events| - 1], k);
    }
  }

  lemma {:induction false} VerdictFine(events: seq<Event>)
    requires forall k :: 0 <= k < |events| ==> events[k].Reply? && events[k].rc == SUCCESS
    ensures Verdict(events) == SUCCESS
  {
    if events != [] {
      VerdictFine(events[..|events| - 1]);
    }
  }

  lemma VerdictReturns(events: seq<Event>)
    requires AllReplies(events)
    ensures forall k: nat :: LastFailure(events, k) ==> Verdict(events) == events[k].rc
    ensures (forall k :: 0 <= k < |events| ==> events[k].rc == SUCCESS) ==> Verdict(events) == SUCCESS
  {
    forall k: nat | LastFailure(events, k)
      ensures Verdict(events) == events[k].rc
    {
      VerdictAt(events, k);
    }
    if forall k :: 0 <= k < |events| ==> events[k].rc == SUCCESS {
      VerdictFine(events);
    }
  }

  lemma EndingReturns(events: seq<Event>)
    ensures Returns(events, Ending(events))
  {
    if AllReplies(events) {
      VerdictReturns(events);
    }
    forall k: nat | FirstSilence(events, k)
      ensures Heard(events) == k
    {
      HeardIs(events, k);
    }
  }

  /** Wait-all with a timeout or none: one reply is taken per job. A timeout or a broken
      connection ends the wait; the codes are those of the successful replies heard. */
  method CollectAll(jobIds: array<int>, events: seq<Event>) returns (rc: Rc, exitCodes: array<int>, ghost initial: seq<int>)
    requires Terminated(jobIds[..]) && |events| == |Jobs(jobIds[..])|
    ensures fresh(exitCodes) && exitCodes.Length == |initial| == |Jobs(jobIds[..])|
    ensures rc == Ending(events) && Returns(events, rc)
    ensures exitCodes[..] == Gather(Jobs(jobIds[..]), initial, events[..Heard(events)])
    ensures rc == SUCCESS && NoDuplicates(Jobs(jobIds[..])) && Answers(events, Jobs(jobIds[..])) ==>
              forall k, i :: 0 <= k < exitCodes.Length && 0 <= i < |events| && About(events[i], jobIds[k]) ==>
                exitCodes[k] == events[i].exitCode
  {
    var n := CountJobs(jobIds);
    exitCodes := new int[n];
    initial := exitCodes[..];
    ghost var jobs := Jobs(jobIds[..]);
    assert jobIds[..n] == jobs;
    rc := SUCCESS;
    for j := 0 to n
      invariant exitCodes[..] == Gather(jobs, initial, events[..j]) && rc == Verdict(events[..j])
      invariant AllReplies(events[..j])
    {
      assert events[..j + 1][..j] == events[..j];
      if !events[j].Reply? {
        HeardIs(events, j);
        EndingReturns(events);
        return if events[j].TimedOut? then FAILED_TIMEOUT else FAILED_CONNECTION, exitCodes, initial;
      }
      if events[j].rc == SUCCESS {
        RecordReply(jobIds, n, exitCodes, events[j].jobId, events[j].exitCode);
      } else {
        rc := events[j].rc;
      }
    }
    HeardIs(events, n);
    assert events[..n] == events;
    EndingReturns(events);
    if rc == SUCCESS && NoDuplicates(jobs) && Answers(events, jobs) {
      EveryJobGetsItsCode(jobs, initial, events);
    }
  }

  /** Wait-any: one event is taken; a set of no jobs succeeds without one. */
  method CollectAny(jobIds: array<int>, event: Event) returns (rc: Rc, exitCode: int)
    requires Terminated(jobIds[..])
    modifies jobIds
    ensures Jobs(old(jobIds[..])) == [] || !event.Reply? || event.rc != SUCCESS ==> jobIds[..] == old(jobIds[..])
    ensures Jobs(old(jobIds[..])) == [] ==> rc == SUCCESS
    ensures Jobs(old(jobIds[..])) != [] ==>
              match event
              case Reply(r, j, c) => rc == r && (r == SUCCESS ==> exitCode == c && jobIds[..] == old(jobIds[..])[0 := j])
              case TimedOut => rc == FAILED_TIMEOUT
              case Broken => rc == FAILED_CONNECTION
  {
    exitCode := 0;
    var n := CountJobs(jobIds);
    if n == 0 {
      return SUCCESS, exitCode;
    }
    match event {
      case TimedOut => rc := FAILED_TIMEOUT;
      case Broken => rc := FAILED_CONNECTION;
      case Reply(r, j, c) =>
        if r == SUCCESS {
          exitCode := c;
          jobIds[0] := j;
        }
        rc := r;
    }
  }

  // ---------- what the reply loop gathers ----------

  predicate Tells(e: Event, jobId: int) {
    e.Reply? && e.rc == SUCCESS && e.jobId == jobId
  }

  /** Event `i` is the last successful reply about job `jobId`. */
  predicate LastTelling(events: seq<Event>, jobId: int, i: nat) {
    i < |events| && Tells(events[i], jobId) && forall k :: i < k < |events| ==> !Tells(events[k], jobId)
  }

  /** For every sequence of replies: the first slot of a job number holds the code of the last
      successful reply about it, or is left as it was; later slots of the number are left. */
  lemma {:induction false} GatherAt(jobs: seq<int>, codes: seq<int>, events: seq<Event>, k: nat)
    requires |codes| == |jobs| && k < |jobs|
    ensures jobs[k] in jobs[..k] ==> Gather(jobs, codes, events)[k] == codes[k]
    ensures (forall i :: 0 <= i < |events| ==> !Tells(events[i], jobs[k])) ==> Gather(jobs, codes, events)[k] == codes[k]
    ensures jobs[k] !in jobs[..k] ==> forall i: nat :: LastTelling(events, jobs[k], i) ==>
              Gather(jobs, codes, events)[k] == events[i].exitCode
    decreases |events|
  {
    if events != [] {
      var n := |events| - 1;
      GatherAt(jobs, codes, events[..n], k);
      RecordAt(jobs, Gather(jobs, codes, events[..n]), events[n], k);
      forall i: nat | LastTelling(events, jobs[k], i) && i < n
        ensures LastTelling(events[..n], jobs[k], i) && !Tells(events[n], jobs[k])
      {
        TellingBefore(events, jobs[k], i);
      }
    }
  }

  /** One reply more changes the first slot of its job, and only if it is a success. */
  lemma RecordAt(jobs: seq<int>, codes: seq<int>, e: Event, k: nat)
    requires |codes| == |jobs| && k < |jobs|
    ensures Record(jobs, codes, e)[k] == if jobs[k] !in jobs[..k] && Tells(e, jobs[k]) then e.exitCode else codes[k]
  {
    if Tells(e, jobs[k]) && jobs[k] !in jobs[..k] {
      SlotAt(jobs, jobs[k], k);
    }
  }

  lemma TellingBefore(events: seq<Event>, jobId: int, i: nat)
    requires LastTelling(events, jobId, i) && i < |events| - 1
    ensures LastTelling(events[..|events| - 1], jobId, i) && !Tells(events[|events| - 1], jobId)
  {
  }

  function Ids(events: seq<Event>): (ids: seq<int>)
    requires AllReplies(events)
    ensures |ids| == |events| && forall i :: 0 <= i < |events| ==> ids[i] == events[i].jobId
  {
    seq(|events|, i requires 0 <= i < |events| => events[i].jobId)
  }

  predicate Successful(events: seq<Event>) {
    AllReplies(events) && forall i :: 0 <= i < |events| ==> events[i].rc == SUCCESS
  }

  lemma {:induction false} VerdictIsSuccess(events: seq<Event>)
    requires AllReplies(events)
    ensures Verdict(events) == SUCCESS <==> Successful(events)
  {
    if events != [] {
      VerdictIsSuccess(events[..|events| - 1]);
    }
  }

  lemma {:induction false} CountsAgree(s: seq<int>, i: nat, k: nat)
    requires i < k < |s| && s[i] == s[k]
    ensures multiset(s)[s[i]] >= 2
  {
    assert s == s[..k] + [s[k]] + s[k + 1..];
    assert s[..k][i] == s[i];
    assert s[i] in multiset(s[..k]);
  }

  lemma {:induction false} DistinctCounts(jobs: seq<int>)
    requires NoDuplicates(jobs)
    ensures forall x :: multiset(jobs)[x] <= 1
  {
    if jobs != [] {
      var n := |jobs| - 1;
      DistinctCounts(jobs[..n]);
      assert jobs == jobs[..n] + [jobs[n]];
    }
  }

  lemma CodeOfOwnReply(jobs: seq<int>, codes: seq<int>, events: seq<Event>, k: nat, i: nat)
    requires NoDuplicates(jobs) && |codes| == |jobs| && Successful(events) && multiset(Ids(events)) == multiset(jobs)
    requires k < |jobs| && i < |events| && events[i].jobId == jobs[k]
    ensures Gather(jobs, codes, events)[k] == events[i].exitCode
  {
    DistinctCounts(jobs);
    forall m | i < m < |events|
      ensures !Tells(events[m], jobs[k])
    {
      if events[m].jobId == jobs[k] {
        CountsAgree(Ids(events), i, m);
      }
    }
    assert LastTelling(events, jobs[k], i);
    GatherAt(jobs, codes, events, k);
  }

  predicate About(e: Event, jobId: int) {
    e.Reply? && e.jobId == jobId
  }

  /** One reply for each job, in some order, if nothing but replies is heard. */
  predicate Answers(events: seq<Event>, jobs: seq<int>) {
    AllReplies(events) ==> multiset(Ids(events)) == multiset(jobs)
  }

  /** Success is returned only if every event was a successful reply. */
  lemma EndingIsSuccess(events: seq<Event>)
    ensures Ending(events) == SUCCESS <==> Successful(events)
  {
    if AllReplies(events) {
      VerdictIsSuccess(events);
    }
  }

  /** When waiting for all of a set of distinct jobs returns success, every job has the code of
      its own reply, whatever the order of the replies and whatever the memory held. */
  lemma EveryJobGetsItsCode(jobs: seq<int>, codes: seq<int>, events: seq<Event>)
    requires NoDuplicates(jobs) && |codes| == |jobs| && Answers(events, jobs) && Ending(events) == SUCCESS
    ensures AllReplies(events)
    ensures forall k, i :: 0 <= k < |jobs| && 0 <= i < |events| && events[i].jobId == jobs[k] ==>
              Gather(jobs, codes, events)[k] == events[i].exitCode
    ensures forall k :: 0 <= k < |jobs| ==> jobs[k] in Ids(events)
  {
    EndingIsSuccess(events);
    forall k, i | 0 <= k < |jobs| && 0 <= i < |events| && events[i].jobId == jobs[k]
      ensures Gather(jobs, codes, events)[k] == events[i].exitCode
    {
      CodeOfOwnReply(jobs, codes, events, k, i);
    }
    forall k | 0 <= k < |jobs|
      ensures jobs[k] in Ids(events)
    {
      assert jobs[k] in multiset(jobs);
    }
  }

  /** So the order of the replies does not matter. */
  lemma OrderDoesNotMatter(jobs: seq<int>, codes: seq<int>, codes': seq<int>, events: seq<Event>, events': seq<Event>)
    requires NoDuplicates(jobs) && |codes| == |codes'| == |jobs|
    requires Successful(events) && multiset(Ids(events)) == multiset(jobs)
    requires multiset(events') == multiset(events)
    ensures Gather(jobs, codes, events) == Gather(jobs, codes', events')
  {
    SameEvents(events, events');
    forall k | 0 <= k < |jobs|
      ensures Gather(jobs, codes, events)[k] == Gather(jobs, codes', events')[k]
    {
      assert jobs[k] in multiset(Ids(events));
      var i :| 0 <= i < |events| && Ids(events)[i] == jobs[k];
      CodeOfOwnReply(jobs, codes, events, k, i);
      assert events[i] in multiset(events');
      var m :| 0 <= m < |events'| && events'[m] == events[i];
      CodeOfOwnReply(jobs, codes', events', k, m);
    }
  }

  lemma SameEvents(events: seq<Event>, events': seq<Event>)
    requires Successful(events) && multiset(events') == multiset(events)
    ensures Successful(events') && multiset(Ids(events')) == multiset(Ids(events))
  {
    forall m | 0 <= m < |events'|
      ensures events'[m].Reply? && events'[m].rc == SUCCESS
    {
      assert events'[m] in multiset(events);
    }
    IdsPermute(events, events');
  }

  function Without<T>(s: seq<T>, m: nat): (r: seq<T>)
    requires m < |s|
    ensures |r| == |s| - 1 && multiset(s) == multiset(r) + multiset{s[m]}
    ensures forall x :: x in r ==> x in s
  {
    assert s == s[..m] + [s[m]] + s[m + 1..];
    s[..m] + s[m + 1..]
  }

  lemma IdsWithout(events: seq<Event>, m: nat)
    requires AllReplies(events) && m < |events|
    ensures AllReplies(Without(events, m))
    ensures multiset(Ids(events)) == multiset(Ids(Without(events, m))) + multiset{events[m].jobId}
  {
    assert Ids(Without(events, m)) == Without(Ids(events), m);
  }

  lemma {:induction false} IdsPermute(events: seq<Event>, events': seq<Event>)
    requires AllReplies(events) && AllReplies(events') && multiset(events') == multiset(events)
    ensures multiset(Ids(events')) == multiset(Ids(events))
    decreases |events|
  {
    if events == [] {
      assert |multiset(events')| == 0;
    } else {
      assert events[0] in multiset(events');
      var m :| 0 <= m < |events'| && events'[m] == events[0];
      var rest, rest' := Without(events, 0), Without(events', m);
      assert multiset(rest) == multiset(events) - multiset{events[0]};
      assert multiset(rest') == multiset(events') - multiset{events[0]};
      IdsWithout(events, 0);
      IdsWithout(events', m);
      IdsPermute(rest, rest');
    }
  }

  /** When all replies are successes and one for each wait, every job's code is set, whatever
      the memory held, if and only if the jobs are distinct. */
  lemma AllCodesSetExactly(jobs: seq<int>, events: seq<Event>)
    requires Successful(events) && multiset(Ids(events)) == multiset(jobs)
    ensures NoDuplicates(jobs) <==>
            forall codes, codes' :: |codes| == |codes'| == |jobs| ==> Gather(jobs, codes, events) == Gather(jobs, codes', events)
  {
    if NoDuplicates(jobs) {
      forall codes, codes' | |codes| == |codes'| == |jobs|
        ensures Gather(jobs, codes, events) == Gather(jobs, codes', events)
      {
        OrderDoesNotMatter(jobs, codes, codes', events, events);
      }
    } else {
      var i, k :| 0 <= i < k < |jobs| && jobs[i] == jobs[k];
      assert jobs[..k][i] == jobs[k];
      var zeros, ones := seq(|jobs|, _ => 0), seq(|jobs|, _ => 1);
      GatherAt(jobs, zeros, events, k);
      GatherAt(jobs, ones, events, k);
      assert Gather(jobs, zeros, events) != Gather(jobs, ones, events);
    }
  }
}
