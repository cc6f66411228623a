/** Signalling a job array (gridway-5.8/src/client/gw_client_signal.c:176-271): after the job
table is refreshed, one pass signals the array's idle jobs and a second one the rest, so that
killing an array frees the cheap jobs first.

The table is a fixed snapshot; `accepted[i]` tells whether a signal to job `i` succeeds.
 */
module ClientSignal {
  import opened ClientPool

  datatype Rc = SUCCESS | FAILED | FAILED_BAD_ARRAY_ID

  /** The cases of the first switch. */
  predicate IsIdle(s: JobState) {
    s in {INIT, PENDING, HOLD, STOPPED, ZOMBIE, JobState.FAILED}
  }

  /** The cases of the second switch. */
  predicate IsActive(s: JobState) {
    s in {PROLOG, PRE_WRAPPER, WRAPPER, EPILOG, EPILOG_STD, EPILOG_RESTART, EPILOG_FAIL, STOP_CANCEL, STOP_EPILOG,
          KILL_CANCEL, KILL_EPILOG, MIGR_CANCEL, MIGR_PROLOG, MIGR_EPILOG}
  }

  /** Between them the two switches name every state but the last, and none twice; idle are the
      jobs that have not come to their prolog, that are stopped, or that are over. */
  lemma StatesCovered(s: JobState)
    ensures !(IsIdle(s) && IsActive(s))
    ensures !IsIdle(s) && !IsActive(s) <==> s == LIMIT
    ensures IsIdle(s) <==> Place(s) < Place(PROLOG) || s == STOPPED || Place(ZOMBIE) <= Place(s) < Place(LIMIT)
  {
  }

  predicate Picks(e: Entry, arrayId: int, idle: bool) {
    OfArray(e, arrayId) && if idle then IsIdle(e.job.state) else IsActive(e.job.state)
  }

  function Picked(pool: seq<Entry>, arrayId: int, idle: bool): seq<nat> {
    if pool == [] then []
    else
      var n := |pool| - 1;
      Picked(pool[..n], arrayId, idle) + if Picks(pool[n], arrayId, idle) then [n] else []
  }

  predicate AllAccepted(sent: seq<nat>, accepted: seq<bool>)
    requires forall i :: i in sent ==> i < |accepted|
  {
    forall i :: i in sent ==> accepted[i]
  }

  lemma {:induction false} PickedIs(pool: seq<Entry>, arrayId: int, idle: bool)
    ensures var p := Picked(pool, arrayId, idle);
            && (forall i :: i in p <==> 0 <= i < |pool| && Picks(pool[i], arrayId, idle))
            && (forall j, k :: 0 <= j < k < |p| ==> p[j] < p[k])
  {
    if pool != [] {
      var n := |pool| - 1;
      PickedIs(pool[..n], arrayId, idle);
      var p, q := Picked(pool, arrayId, idle), Picked(pool[..n], arrayId, idle);
      assert forall i :: i in p <==> i in q || (i == n && Picks(pool[n], arrayId, idle));
      assert forall i :: 0 <= i < n ==> pool[..n][i] == pool[i];
      forall j, k | 0 <= j < k < |p|
        ensures p[j] < p[k]
      {
        assert q[j] in q && p[j] == q[j];
        assert k < |q| ==> p[k] == q[k];
      }
    }
  }

  /** One pass over the table. */
  method Pass(pool: array<Entry>, arrayId: int, idle: bool, accepted: seq<bool>, before: seq<nat>, rc: Rc)
      returns (sent: seq<nat>, frc: Rc)
    requires |accepted| == pool.Length
    ensures sent == before + Picked(pool[..], arrayId, idle)
    ensures frc == if forall i :: 0 <= i < pool.Length && Picks(pool[i], arrayId, idle) ==> accepted[i] then rc else Rc.FAILED
  {
    sent, frc := before, rc;
    for i := 0 to pool.Length
      invariant sent == before + Picked(pool[..i], arrayId, idle)
      invariant frc == if forall k :: 0 <= k < i && Picks(pool[k], arrayId, idle) ==> accepted[k] then rc else Rc.FAILED
    {
      assert pool[..i + 1][..i] == pool[..i];
      if pool[i].Known? && pool[i].job.arrayId == arrayId &&
         (if idle then IsIdle(pool[i].job.state) else IsActive(pool[i].job.state)) {
        sent := sent + [i];
        if !accepted[i] {
          frc := Rc.FAILED;
        }
      }
    }
    assert pool[..pool.Length] == pool[..];
  }

  /** gw_client_array_signal; `refreshed` tells whether the job table could be refreshed. */
  method SignalArray(pool: array<Entry>, arrayId: int, refreshed: bool, accepted: seq<bool>)
      returns (sent: seq<nat>, frc: Rc)
    requires |accepted| == pool.Length
    ensures sent == if refreshed then Picked(pool[..], arrayId, true) + Picked(pool[..], arrayId, false) else []
    ensures forall i :: i in sent ==> i < |accepted|
    ensures frc == if sent == [] then FAILED_BAD_ARRAY_ID else if AllAccepted(sent, accepted) then SUCCESS else Rc.FAILED
  {
    sent, frc := [], SUCCESS;
    if refreshed {
      sent, frc := Pass(pool, arrayId, true, accepted, sent, frc);
      sent, frc := Pass(pool, arrayId, false, accepted, sent, frc);
      PickedIs(pool[..], arrayId, true);
      PickedIs(pool[..], arrayId, false);
    }
    if sent == [] {
      frc := FAILED_BAD_ARRAY_ID;
    }
  }

  /** The signals sent: to every job of the array in a state other than LIMIT exactly once, to
      no other job, and to the idle jobs before the active ones. */
  lemma SignalsOnceIdleFirst(pool: seq<Entry>, arrayId: int, sent: seq<nat>)
    requires sent == Picked(pool, arrayId, true) + Picked(pool, arrayId, false)
    ensures forall i :: i in sent <==> 0 <= i < |pool| && OfArray(pool[i], arrayId) && pool[i].job.state != LIMIT
    ensures forall j, k :: 0 <= j < k < |sent| ==> sent[j] != sent[k]
    ensures forall j, k :: 0 <= j < |sent| && 0 <= k < |sent| && sent[j] < |pool| && sent[k] < |pool| ==>
              && pool[sent[j]].Known? && pool[sent[k]].Known?
              && (IsIdle(pool[sent[j]].job.state) && IsActive(pool[sent[k]].job.state) ==> j < k)
  {
    PickedIs(pool, arrayId, true);
    PickedIs(pool, arrayId, false);
    var p, q := Picked(pool, arrayId, true), Picked(pool, arrayId, false);
    forall i | 0 <= i < |pool| && OfArray(pool[i], arrayId)
      ensures !(Picks(pool[i], arrayId, true) && Picks(pool[i], arrayId, false))
      ensures Picks(pool[i], arrayId, true) || Picks(pool[i], arrayId, false) <==> pool[i].job.state != LIMIT
    {
      StatesCovered(pool[i].job.state);
    }
    assert forall i :: i in sent <==> i in p || i in q;
    forall j | 0 <= j < |sent|
      ensures sent[j] == if j < |p| then p[j] else q[j - |p|]
    {
    }
    assert forall j :: 0 <= j < |p| ==> sent[j] in p;
    assert forall j :: |p| <= j < |sent| ==> sent[j] in q;
  }

  ghost predicate Answered(messages: seq<ClientJob>, arrayId: int, i: nat) {
    exists m :: m in messages && m.id == i && m.arrayId == arrayId && m.state != LIMIT
  }

  lemma StoredPicks(size: nat, messages: seq<ClientJob>, arrayId: int, i: nat)
    requires forall m, m' :: m in messages && m' in messages && m.id == m'.id ==> m == m'
    requires i < size
    ensures var e := Stored(size, messages)[i];
            OfArray(e, arrayId) && e.job.state != LIMIT <==> Answered(messages, arrayId, i)
  {
    StoredAtOwnId(size, messages, i);
    var e := Stored(size, messages)[i];
    if Answered(messages, arrayId, i) {
      var m :| m in messages && m.id == i && m.arrayId == arrayId && m.state != LIMIT;
      assert e.job == m;
    }
  }

  /** With the table the daemon's answers give, a signal to slot `i` is a signal to job `i`: the
      jobs signalled are the array's, and the array is reported unknown exactly when no answer
      is about a job of it in a state other than LIMIT. */
  lemma SignalsTheArray(size: nat, messages: seq<ClientJob>, arrayId: int, sent: seq<nat>)
    requires forall m, m' :: m in messages && m' in messages && m.id == m'.id ==> m == m'
    requires sent == Picked(Stored(size, messages), arrayId, true) + Picked(Stored(size, messages), arrayId, false)
    ensures forall i: nat :: i in sent <==> i < size && Answered(messages, arrayId, i)
    ensures sent == [] <==> forall i: nat :: i < size ==> !Answered(messages, arrayId, i)
  {
    SignalsOnceIdleFirst(Stored(size, messages), arrayId, sent);
    forall i: nat
      ensures i in sent <==> i < size && Answered(messages, arrayId, i)
    {
      if i < size {
        StoredPicks(size, messages, arrayId, i);
      }
    }
    assert sent != [] ==> sent[0] in sent;
  }
}
