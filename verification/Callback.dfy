/** The execution manager's callback protocol (drm4g/core/em_mad.py:97-234, the status cell of
drm4g/managers/__init__.py:125-135 and the locked list of drm4g/utils/list.py).

The main thread submits and recovers jobs, pool threads poll and cancel them, and one
callback thread scans the list over and over.  A step is what happens under one lock or is
otherwise visible to other threads; a run is any interleaving of steps.  For every run it is
shown what the SUCCESS CALLBACK messages of each job are.
 */
module Callback {
  import opened Basics

  type Status = string
  type JID = string
  type Ref = nat

  predicate Terminal(s: Status) {
    s == "DONE" || s == "FAILED"
  }

  /** A job object.  `base`, `observed` and `emitted` record its history: the status it was put
      in the list with, what the callback thread's refreshes saw, and the statuses reported. */
  datatype Job = Job(status: Option<Status>, base: Option<Status>, observed: seq<Status>, emitted: seq<Status>)

  /** Where the callback thread is; `todo` is what remains of its copy of the list. */
  datatype Thread =
    | Sleeping
    | Scanning(todo: seq<(JID, Ref)>)
    | HaveOld(jid: JID, ref: Ref, old_: Option<Status>, todo: seq<(JID, Ref)>)
    | Refreshed(jid: JID, ref: Ref, old_: Option<Status>, todo: seq<(JID, Ref)>)
    | Deleting(jid: JID, ref: Ref, new_: Option<Status>, todo: seq<(JID, Ref)>)
    | Reporting(jid: JID, ref: Ref, new_: Option<Status>, todo: seq<(JID, Ref)>)

  /** Where a thread answering POLL is, between `has_key`, `get` and `getStatus`, or one
      answering CANCEL, between `has_key` and `get`. */
  datatype Poll = Asked(jid: JID) | Holding(jid: JID, ref: Ref) | Cancelling(jid: JID)

  datatype Message =
    | PollSuccess(jid: JID, ref: Ref, status: Option<Status>)
    | PollFailure(jid: JID)
    | CancelSuccess(jid: JID, ref: Ref)
    | CancelFailure(jid: JID)
    | CallbackSuccess(jid: JID, ref: Ref, status: Option<Status>)
    | CallbackFailure(jid: JID)

  datatype State = State(
    jobs: seq<Job>,           // every job object made so far
    listed: map<JID, Ref>,    // _job_list
    callback: Thread,
    polls: map<nat, Poll>,    // requests being answered, by pool thread
    out: seq<Message>)

  datatype Action =
    | Submit(jid: JID)                    // jobSubmit worked; put
    | Recover(jid: JID, status: Status)   // refresh of a new object; put
    | PollAsk(thread: nat, jid: JID)      // has_key
    | PollGet(thread: nat)                // get
    | PollRead(thread: nat)               // getStatus, answer
    | CancelAsk(thread: nat, jid: JID)    // has_key
    | CancelGet(thread: nat, works: bool) // get, jobCancel, answer
    | Snapshot(items: seq<(JID, Ref)>)    // items()
    | ReadOld                             // getStatus
    | Refresh(status: Status)             // refreshJobStatus
    | RefreshRaises                       // refreshJobStatus raises; FAILURE
    | ReadNew                             // getStatus and the test of line 205
    | Delete                              // delete
    | Report                              // the message of line 209
    | Sleep                               // end of the scan

  const Initial := State([], map[], Sleeping, map[], [])

  // ---------- steps ----------

  predicate Enumerates(items: seq<(JID, Ref)>, listed: map<JID, Ref>) {
    && (forall i :: 0 <= i < |items| ==> items[i].0 in listed && listed[items[i].0] == items[i].1)
    && (forall i, j :: 0 <= i < j < |items| ==> items[i].0 != items[j].0)
    && (forall jid :: jid in listed ==> (jid, listed[jid]) in items)
  }

  predicate Enabled(s: State, a: Action) {
    match a
    case Submit(_) => true
    case Recover(_, _) => true
    case PollAsk(t, _) => t !in s.polls
    case PollGet(t) => t in s.polls && s.polls[t].Asked?
    case PollRead(t) => t in s.polls && s.polls[t].Holding? && s.polls[t].ref < |s.jobs|
    case CancelAsk(t, _) => t !in s.polls
    case CancelGet(t, _) => t in s.polls && s.polls[t].Cancelling?
    case Snapshot(items) => s.callback.Sleeping? && Enumerates(items, s.listed)
    case ReadOld => s.callback.Scanning? && s.callback.todo != [] && s.callback.todo[0].1 < |s.jobs|
    case Refresh(_) => s.callback.HaveOld? && s.callback.ref < |s.jobs|
    case RefreshRaises => s.callback.HaveOld?
    case ReadNew => s.callback.Refreshed? && s.callback.ref < |s.jobs|
    case Delete => s.callback.Deleting?
    case Report => s.callback.Reporting? && s.callback.ref < |s.jobs|
    case Sleep => s.callback.Scanning? && s.callback.todo == []
  }

  function Put(s: State, jid: JID, job: Job): State {
    s.(jobs := s.jobs + [job], listed := s.listed[jid := |s.jobs|])
  }

  function Apply(s: State, a: Action): State
    requires Enabled(s, a)
  {
    match a
    case Submit(jid) => Put(s, jid, Job(None, None, [], []))
    case Recover(jid, st) => Put(s, jid, Job(Some(st), Some(st), [], []))
    case PollAsk(t, jid) =>
      if jid in s.listed then s.(polls := s.polls[t := Asked(jid)]) else s.(out := s.out + [PollFailure(jid)])
    case PollGet(t) =>
      var jid := s.polls[t].jid;
      if jid in s.listed then s.(polls := s.polls[t := Holding(jid, s.listed[jid])])
      else s.(polls := s.polls - {t}, out := s.out + [PollFailure(jid)])  // `None` has no getStatus
    case PollRead(t) =>
      var p := s.polls[t];
      s.(polls := s.polls - {t}, out := s.out + [PollSuccess(p.jid, p.ref, s.jobs[p.ref].status)])
    case CancelAsk(t, jid) =>
      if jid in s.listed then s.(polls := s.polls[t := Cancelling(jid)]) else s.(out := s.out + [CancelFailure(jid)])
    case CancelGet(t, works) =>
      var jid := s.polls[t].jid;
      s.(polls := s.polls - {t},
         out := s.out + [if jid in s.listed && works then CancelSuccess(jid, s.listed[jid]) else CancelFailure(jid)])
    case Snapshot(items) => s.(callback := Scanning(items))
    case ReadOld =>
      var todo := s.callback.todo;
      s.(callback := HaveOld(todo[0].0, todo[0].1, s.jobs[todo[0].1].status, todo[1..]))
    case Refresh(st) =>
      var c := s.callback;
      var job := s.jobs[c.ref];
      s.(callback := Refreshed(c.jid, c.ref, c.old_, c.todo),
         jobs := s.jobs[c.ref := job.(status := Some(st), observed := job.observed + [st])])
    case RefreshRaises =>
      s.(callback := Scanning(s.callback.todo), out := s.out + [CallbackFailure(s.callback.jid)])
    case ReadNew =>
      var c := s.callback;
      var new_ := s.jobs[c.ref].status;
      var done := new_.Some? && Terminal(new_.value);
      s.(callback := if done then Deleting(c.jid, c.ref, new_, c.todo)
                     else if c.old_ != new_ then Reporting(c.jid, c.ref, new_, c.todo)
                     else Scanning(c.todo))
    case Delete =>
      var c := s.callback;
      s.(listed := s.listed - {c.jid}, callback := Reporting(c.jid, c.ref, c.new_, c.todo))
    case Report =>
      var c := s.callback;
      var job := s.jobs[c.ref];
      s.(callback := Scanning(c.todo), out := s.out + [CallbackSuccess(c.jid, c.ref, c.new_)],
         jobs := s.jobs[c.ref := job.(emitted := job.emitted + (if c.new_.Some? then [c.new_.value] else []))])
    case Sleep => s.(callback := Sleeping)
  }

  /** A JID is not put again while it is listed. */
  predicate Polite(s: State, a: Action) {
    (a.Submit? || a.Recover?) ==> a.jid !in s.listed
  }

  /** Step `i` is enabled and gives the next state. */
  ghost predicate Goes(states: seq<State>, actions: seq<Action>, i: nat)
    requires i < |actions| < |states|
  {
    Enabled(states[i], actions[i]) && states[i + 1] == Apply(states[i], actions[i])
  }

  /** An interleaving of enabled steps and the states it goes through. */
  ghost predicate IsRun(states: seq<State>, actions: seq<Action>) {
    && |states| == |actions| + 1
    && states[0] == Initial
    && forall i :: 0 <= i < |actions| ==> Goes(states, actions, i)
  }

  ghost predicate IsPolite(states: seq<State>, actions: seq<Action>)
    requires |states| == |actions| + 1
  {
    forall i :: 0 <= i < |actions| ==> Polite(states[i], actions[i])
  }

  // ---------- what is to be reported ----------

  /** Consecutive repeats removed. */
  function Destutter<T(==)>(s: seq<T>): (r: seq<T>)
    ensures s != [] ==> r != [] && r[|r| - 1] == s[|s| - 1]
    ensures s == [] ==> r == []
    decreases |s|
  {
    if |s| <= 1 then s else
      var front := Destutter(s[..|s| - 1]);
      if s[|s| - 2] == s[|s| - 1] then front else front + [s[|s| - 1]]
  }

  function Known(obs: seq<Status>): (r: seq<Option<Status>>)
    ensures |r| == |obs|
    ensures forall i :: 0 <= i < |obs| ==> r[i] == Some(obs[i])
  {
    seq(|obs|, i requires 0 <= i < |obs| => Some(obs[i]))
  }

  /** The statuses to report for a job put with status `base` and then seen as `obs`: the
      changes; and if it was already finished when put and is seen so again, that. */
  function Expected(base: Option<Status>, obs: seq<Status>): seq<Option<Status>> {
    if base.Some? && Terminal(base.value) && obs == [base.value] then Known(obs)
    else Destutter([base] + Known(obs))[1..]
  }

  /** Only the last status seen may be terminal. */
  predicate EndsAtTerminal(obs: seq<Status>) {
    forall i :: 0 <= i < |obs| - 1 ==> !Terminal(obs[i])
  }

  predicate Finished(obs: seq<Status>) {
    obs != [] && Terminal(obs[|obs| - 1])
  }

  lemma DestutterSnoc<T>(s: seq<T>, x: T)
    requires s != []
    ensures Destutter(s + [x]) == if s[|s| - 1] == x then Destutter(s) else Destutter(s) + [x]
  {
    var t := s + [x];
    assert t[..|t| - 1] == s && t[|t| - 2] == s[|s| - 1];
  }

  /** The last status known of a job. */
  function Latest(base: Option<Status>, obs: seq<Status>): Option<Status> {
    if obs == [] then base else Some(obs[|obs| - 1])
  }

  /** One more status seen is reported if it differs from the last one or is terminal. */
  lemma ExpectedSnoc(base: Option<Status>, obs: seq<Status>, st: Status)
    requires !Finished(obs)
    ensures Expected(base, obs + [st]) == Expected(base, obs)
            + if Latest(base, obs) != Some(st) || Terminal(st) then [Some(st)] else []
  {
    var all := [base] + Known(obs);
    assert [base] + Known(obs + [st]) == all + [Some(st)];
    DestutterSnoc(all, Some(st));
    if obs == [] {
      assert all == [base];
      assert obs + [st] == [st] && Known([st]) == [Some(st)];
    } else {
      assert all[|all| - 1] == Known(obs)[|obs| - 1];
      assert (obs + [st])[0] == obs[0];
    }
  }

  /** The statuses of the SUCCESS CALLBACK messages about a job. */
  function Reports(out: seq<Message>, ref: Ref): seq<Option<Status>> {
    if out == [] then [] else
      var m := out[|out| - 1];
      Reports(out[..|out| - 1], ref) + if m.CallbackSuccess? && m.ref == ref then [m.status] else []
  }

  lemma ReportsSnoc(out: seq<Message>, m: Message, ref: Ref)
    ensures Reports(out + [m], ref) == Reports(out, ref) + if m.CallbackSuccess? && m.ref == ref then [m.status] else []
  {
    assert (out + [m])[..|out|] == out;
  }

  // ---------- the invariant ----------

  predicate IsDone(st: Option<Status>) {
    st.Some? && Terminal(st.value)
  }

  /** The callback thread is busy with the job. */
  predicate Busy(c: Thread, ref: Ref) {
    (c.HaveOld? || c.Refreshed? || c.Deleting? || c.Reporting?) && c.ref == ref
  }

  /** The report about the job that is due but not made yet. */
  function Due(c: Thread, ref: Ref, job: Job): seq<Option<Status>> {
    if !Busy(c, ref) then []
    else match c
      case Refreshed(_, _, old_, _) => if old_ != job.status || IsDone(job.status) then [job.status] else []
      case Deleting(_, _, new_, _) => [new_]
      case Reporting(_, _, new_, _) => [new_]
      case _ => []
  }

  ghost predicate IsListed(listed: map<JID, Ref>, ref: Ref) {
    exists jid :: jid in listed && listed[jid] == ref
  }

  ghost predicate JobInv(s: State, ref: Ref)
    requires ref < |s.jobs|
  {
    var job := s.jobs[ref];
    && job.status == Latest(job.base, job.observed)
    && EndsAtTerminal(job.observed)
    && Reports(s.out, ref) == Known(job.emitted)
    && Known(job.emitted) + Due(s.callback, ref, job) == Expected(job.base, job.observed)
    && (IsListed(s.listed, ref) <==>
          !Finished(job.observed) || ((s.callback.Refreshed? || s.callback.Deleting?) && s.callback.ref == ref))
  }

  /** The entries still to be scanned are listed, once each, and not the current one. */
  predicate TodoInv(todo: seq<(JID, Ref)>, listed: map<JID, Ref>, n: nat) {
    && (forall i :: 0 <= i < |todo| ==> todo[i].0 in listed && listed[todo[i].0] == todo[i].1 && todo[i].1 < n)
    && (forall i, j :: 0 <= i < j < |todo| ==> todo[i].0 != todo[j].0)
  }

  predicate ThreadInv(s: State) {
    match s.callback
    case Sleeping => true
    case Scanning(todo) => TodoInv(todo, s.listed, |s.jobs|)
    case HaveOld(jid, ref, old_, todo) =>
      && TodoInv([(jid, ref)] + todo, s.listed, |s.jobs|) && ref < |s.jobs|
      && old_ == s.jobs[ref].status
    case Refreshed(jid, ref, old_, todo) =>
      && TodoInv([(jid, ref)] + todo, s.listed, |s.jobs|) && ref < |s.jobs|
      && s.jobs[ref].observed != []
    case Deleting(jid, ref, new_, todo) =>
      && TodoInv([(jid, ref)] + todo, s.listed, |s.jobs|) && ref < |s.jobs|
      && new_ == s.jobs[ref].status && IsDone(new_) && s.jobs[ref].observed != []
    case Reporting(jid, ref, new_, todo) =>
      && TodoInv(todo, s.listed, |s.jobs|) && ref < |s.jobs|
      && new_ == s.jobs[ref].status && new_.Some?
      && (forall i :: 0 <= i < |todo| ==> todo[i].1 != ref)
  }

  predicate ListedInv(s: State) {
    && (forall jid :: jid in s.listed ==> s.listed[jid] < |s.jobs|)
    && (forall j, k :: j in s.listed && k in s.listed && s.listed[j] == s.listed[k] ==> j == k)
    && (forall t :: t in s.polls && s.polls[t].Holding? ==> s.polls[t].ref < |s.jobs|)
    && (forall i :: 0 <= i < |s.out| && s.out[i].CallbackSuccess? ==> s.out[i].ref < |s.jobs|)
  }

  ghost predicate Inv(s: State) {
    && ListedInv(s)
    && ThreadInv(s)
    && forall ref :: 0 <= ref < |s.jobs| ==> JobInv(s, ref)
  }

  lemma InitialInv()
    ensures Inv(Initial)
  {
  }

  lemma {:induction false} NoReports(out: seq<Message>, n: Ref)
    requires forall i :: 0 <= i < |out| && out[i].CallbackSuccess? ==> out[i].ref != n
    ensures Reports(out, n) == []
    decreases |out|
  {
    if out != [] {
      NoReports(out[..|out| - 1], n);
    }
  }

  /** Steps that put a new job. */
  lemma PutKeeps(s: State, jid: JID, job: Job)
    requires Inv(s) && jid !in s.listed
    requires job.status == job.base && job.observed == [] && job.emitted == []
    ensures Inv(Put(s, jid, job))
  {
    var s', n := Put(s, jid, job), |s.jobs|;
    assert s'.listed[jid] == n;
    forall ref | 0 <= ref < |s'.jobs|
      ensures JobInv(s', ref)
    {
      if ref < n {
        assert JobInv(s, ref);
        if IsListed(s.listed, ref) {
          var k :| k in s.listed && s.listed[k] == ref;
          assert s'.listed[k] == ref;
        }
        if IsListed(s'.listed, ref) {
          var k :| k in s'.listed && s'.listed[k] == ref;
          assert s.listed[k] == ref;
        }
      } else {
        NoReports(s.out, n);
        assert [job.base] + Known([]) == [job.base];
        assert IsListed(s'.listed, n);
      }
    }
  }

  /** A message other than a SUCCESS CALLBACK, with the other changes of steps that send one. */
  lemma OtherMessage(s: State, s': State, m: Message)
    requires Inv(s) && !m.CallbackSuccess?
    requires s'.jobs == s.jobs && s'.listed == s.listed && s'.out == s.out + [m]
    requires s'.callback == s.callback || (s.callback.HaveOld? && s'.callback == Scanning(s.callback.todo))
    requires forall t :: t in s'.polls ==> t in s.polls && s'.polls[t] == s.polls[t]
    ensures Inv(s')
  {
    if s'.callback != s.callback {
      TodoTail([(s.callback.jid, s.callback.ref)], s.callback.todo, s.listed, |s.jobs|);
    }
    forall ref | 0 <= ref < |s'.jobs|
      ensures JobInv(s', ref)
    {
      assert JobInv(s, ref);
      ReportsSnoc(s.out, m, ref);
    }
  }

  lemma TodoTail(front: seq<(JID, Ref)>, todo: seq<(JID, Ref)>, listed: map<JID, Ref>, n: nat)
    requires TodoInv(front + todo, listed, n)
    ensures TodoInv(todo, listed, n)
  {
    var all := front + todo;
    assert forall i :: 0 <= i < |todo| ==> todo[i] == all[|front| + i];
  }

  lemma PollKeeps(s: State, a: Action)
    requires Inv(s) && Enabled(s, a)
    requires a.PollAsk? || a.PollGet? || a.PollRead? || a.CancelAsk? || a.CancelGet?
    ensures Inv(Apply(s, a))
  {
    var s' := Apply(s, a);
    if s'.out != s.out {
      OtherMessage(s, s', s'.out[|s.out|]);
    } else {
      forall ref | 0 <= ref < |s'.jobs|
        ensures JobInv(s', ref)
      {
        assert JobInv(s, ref);
      }
    }
  }

  /** Whatever is polled is what was last known of the job. */
  lemma PollTellsLatest(s: State, t: nat)
    requires Inv(s) && Enabled(s, PollRead(t))
    ensures var p := s.polls[t];
            var job := s.jobs[p.ref];
            Apply(s, PollRead(t)).out == s.out + [PollSuccess(p.jid, p.ref, Latest(job.base, job.observed))]
  {
    assert JobInv(s, s.polls[t].ref);
  }

  lemma ScanKeeps(s: State, a: Action)
    requires Inv(s) && Enabled(s, a) && (a.Snapshot? || a.Sleep? || a.ReadOld?)
    ensures Inv(Apply(s, a))
  {
    var s' := Apply(s, a);
    if a.ReadOld? {
      var todo := s.callback.todo;
      assert [todo[0]] + todo[1..] == todo;
      assert todo[0] == (todo[0].0, todo[0].1);
    }
    forall ref | 0 <= ref < |s'.jobs|
      ensures JobInv(s', ref)
    {
      assert JobInv(s, ref);
    }
  }

  lemma FirstListed(jid: JID, ref: Ref, todo: seq<(JID, Ref)>, listed: map<JID, Ref>, n: nat)
    requires TodoInv([(jid, ref)] + todo, listed, n)
    ensures jid in listed && listed[jid] == ref && ref < n && IsListed(listed, ref)
    ensures forall i :: 0 <= i < |todo| ==> todo[i].0 != jid
  {
    var all := [(jid, ref)] + todo;
    assert all[0] == (jid, ref);
    assert forall i :: 0 <= i < |todo| ==> all[i + 1] == todo[i];
  }

  lemma RefreshKeeps(s: State, st: Status)
    requires Inv(s) && Enabled(s, Refresh(st))
    ensures Inv(Apply(s, Refresh(st)))
  {
    var s', c := Apply(s, Refresh(st)), s.callback;
    FirstListed(c.jid, c.ref, c.todo, s.listed, |s.jobs|);
    RefreshKeepsJob(s, st);
    forall ref | 0 <= ref < |s'.jobs|
      ensures JobInv(s', ref)
    {
      assert JobInv(s, ref);
    }
  }

  /** A job after one more status was seen. */
  lemma SeenMore(job: Job, st: Status)
    requires job.status == Latest(job.base, job.observed) && EndsAtTerminal(job.observed) && !Finished(job.observed)
    requires Known(job.emitted) == Expected(job.base, job.observed)
    ensures var obs := job.observed + [st];
            && Latest(job.base, obs) == Some(st) && EndsAtTerminal(obs)
            && Known(job.emitted) + (if job.status != Some(st) || Terminal(st) then [Some(st)] else []) == Expected(job.base, obs)
  {
    ExpectedSnoc(job.base, job.observed, st);
    EndsSnoc(job.observed, st);
  }

  lemma RefreshKeepsJob(s: State, st: Status)
    requires Inv(s) && Enabled(s, Refresh(st))
    ensures s.callback.ref < |s.jobs| && JobInv(Apply(s, Refresh(st)), s.callback.ref)
  {
    var c := s.callback;
    FirstListed(c.jid, c.ref, c.todo, s.listed, |s.jobs|);
    var job := s.jobs[c.ref];
    assert JobInv(s, c.ref);
    assert Known(job.emitted) + [] == Known(job.emitted);
    SeenMore(job, st);
    EndsSnoc(job.observed, st);
  }

  lemma EndsSnoc(obs: seq<Status>, st: Status)
    requires EndsAtTerminal(obs) && !Finished(obs)
    ensures EndsAtTerminal(obs + [st])
    ensures Latest(None, obs + [st]) == Some(st) && (Finished(obs + [st]) <==> Terminal(st))
  {
    assert forall i :: 0 <= i < |obs| ==> (obs + [st])[i] == obs[i];
  }

  lemma ReadNewKeeps(s: State)
    requires Inv(s) && Enabled(s, ReadNew)
    ensures Inv(Apply(s, ReadNew))
  {
    var s', c := Apply(s, ReadNew), s.callback;
    FirstListed(c.jid, c.ref, c.todo, s.listed, |s.jobs|);
    TodoTail([(c.jid, c.ref)], c.todo, s.listed, |s.jobs|);
    assert JobInv(s, c.ref);
    OthersDiffer(c.jid, c.ref, c.todo, s);
    forall ref | 0 <= ref < |s'.jobs|
      ensures JobInv(s', ref)
    {
      assert JobInv(s, ref);
    }
  }

  /** The other entries of the scan are about other jobs. */
  lemma OthersDiffer(jid: JID, ref: Ref, todo: seq<(JID, Ref)>, s: State)
    requires ListedInv(s) && TodoInv([(jid, ref)] + todo, s.listed, |s.jobs|)
    ensures forall i :: 0 <= i < |todo| ==> todo[i].1 != ref && todo[i].0 != jid
  {
    FirstListed(jid, ref, todo, s.listed, |s.jobs|);
    TodoTail([(jid, ref)], todo, s.listed, |s.jobs|);
  }

  lemma DeleteKeeps(s: State)
    requires Inv(s) && Enabled(s, Delete)
    ensures Inv(Apply(s, Delete))
  {
    var s', c := Apply(s, Delete), s.callback;
    FirstListed(c.jid, c.ref, c.todo, s.listed, |s.jobs|);
    TodoTail([(c.jid, c.ref)], c.todo, s.listed, |s.jobs|);
    OthersDiffer(c.jid, c.ref, c.todo, s);
    assert JobInv(s, c.ref);
    forall ref | 0 <= ref < |s'.jobs|
      ensures JobInv(s', ref)
    {
      assert JobInv(s, ref);
      ListedAfterDelete(s, c.jid, c.ref, ref);
    }
  }

  lemma ListedAfterDelete(s: State, jid: JID, gone: Ref, ref: Ref)
    requires ListedInv(s) && jid in s.listed && s.listed[jid] == gone
    ensures IsListed(s.listed - {jid}, ref) <==> ref != gone && IsListed(s.listed, ref)
  {
    var listed' := s.listed - {jid};
    if IsListed(s.listed, ref) && ref != gone {
      var k :| k in s.listed && s.listed[k] == ref;
      assert k in listed' && listed'[k] == ref;
    }
  }

  lemma ReportKeeps(s: State)
    requires Inv(s) && Enabled(s, Report)
    ensures Inv(Apply(s, Report))
  {
    var s', c := Apply(s, Report), s.callback;
    ReportKeepsOwn(s);
    forall ref | 0 <= ref < |s'.jobs|
      ensures JobInv(s', ref)
    {
      if ref != c.ref {
        ReportKeepsOther(s, ref);
      }
    }
  }

  lemma ReportKeepsOther(s: State, ref: Ref)
    requires Inv(s) && Enabled(s, Report) && ref < |s.jobs| && ref != s.callback.ref
    ensures JobInv(Apply(s, Report), ref)
  {
    var c := s.callback;
    assert JobInv(s, ref);
    ReportsSnoc(s.out, CallbackSuccess(c.jid, c.ref, c.new_), ref);
  }

  lemma ReportKeepsOwn(s: State)
    requires Inv(s) && Enabled(s, Report)
    ensures JobInv(Apply(s, Report), s.callback.ref)
  {
    var c := s.callback;
    var job := s.jobs[c.ref];
    assert JobInv(s, c.ref);
    ReportsSnoc(s.out, CallbackSuccess(c.jid, c.ref, c.new_), c.ref);
    OneMoreReport(job.emitted, c.new_.value);
    assert Known(job.emitted) + [c.new_] == Expected(job.base, job.observed);
  }

  lemma OneMoreReport(emitted: seq<Status>, st: Status)
    ensures Known(emitted + [st]) == Known(emitted) + [Some(st)] == Known(emitted + [st]) + []
  {
  }

  lemma StepKeeps(s: State, a: Action)
    requires Inv(s) && Enabled(s, a) && Polite(s, a)
    ensures Inv(Apply(s, a))
  {
    match a
    case Submit(jid) => PutKeeps(s, jid, Job(None, None, [], []));
    case Recover(jid, st) => PutKeeps(s, jid, Job(Some(st), Some(st), [], []));
    case PollAsk(_, _) => PollKeeps(s, a);
    case PollGet(_) => PollKeeps(s, a);
    case PollRead(_) => PollKeeps(s, a);
    case CancelAsk(_, _) => PollKeeps(s, a);
    case CancelGet(_, _) => PollKeeps(s, a);
    case Snapshot(_) => ScanKeeps(s, a);
    case ReadOld => ScanKeeps(s, a);
    case Refresh(st) => RefreshKeeps(s, st);
    case RefreshRaises => OtherMessage(s, Apply(s, a), CallbackFailure(s.callback.jid));
    case ReadNew => ReadNewKeeps(s);
    case Delete => DeleteKeeps(s);
    case Report => ReportKeeps(s);
    case Sleep => ScanKeeps(s, a);
  }

  lemma {:induction false} RunInv(states: seq<State>, actions: seq<Action>, i: nat)
    requires IsRun(states, actions) && IsPolite(states, actions) && i < |states|
    ensures Inv(states[i])
  {
    if i == 0 {
      InitialInv();
    } else {
      RunInv(states, actions, i - 1);
      RunStep(states, actions, i - 1);
      StepKeeps(states[i - 1], actions[i - 1]);
    }
  }

  // ---------- what is reported ----------

  /** The terminal statuses in `rs`. */
  function TerminalCount(rs: seq<Option<Status>>): nat {
    if rs == [] then 0 else (if IsDone(rs[|rs| - 1]) then 1 else 0) + TerminalCount(rs[..|rs| - 1])
  }

  lemma {:induction false} NoTerminal(base: Option<Status>, obs: seq<Status>)
    requires forall i :: 0 <= i < |obs| ==> !Terminal(obs[i])
    ensures TerminalCount(Expected(base, obs)) == 0
    decreases |obs|
  {
    if obs == [] {
      assert [base] + Known([]) == [base];
      assert Expected(base, obs) == [];
    } else {
      var front, st := obs[..|obs| - 1], obs[|obs| - 1];
      assert obs == front + [st];
      NoTerminal(base, front);
      ExpectedSnoc(base, front, st);
      var e := Expected(base, front);
      assert (e + [Some(st)])[..|e|] == e;
      assert e + [] == e;
    }
  }

  /** A terminal status is reported exactly once, last, if it was seen, and never if not. */
  lemma TerminalOnce(base: Option<Status>, obs: seq<Status>)
    requires EndsAtTerminal(obs)
    ensures TerminalCount(Expected(base, obs)) == if Finished(obs) then 1 else 0
    ensures Finished(obs) ==>
              var e := Expected(base, obs); e != [] && e[|e| - 1] == Some(obs[|obs| - 1])
  {
    if Finished(obs) {
      var front, st := obs[..|obs| - 1], obs[|obs| - 1];
      assert obs == front + [st];
      NoTerminal(base, front);
      ExpectedSnoc(base, front, st);
      var e := Expected(base, front);
      assert (e + [Some(st)])[..|e|] == e;
    } else {
      NoTerminal(base, obs);
    }
  }

  /** In every interleaving in which no JID is put again while it is listed, the statuses
      reported for a job between two of its turns are those expected from what was seen, a
      terminal one exactly once and last, and the job is listed until one was seen. */
  lemma CallbacksAreExpected(states: seq<State>, actions: seq<Action>, i: nat, ref: Ref)
    requires IsRun(states, actions) && IsPolite(states, actions) && i < |states|
    requires ref < |states[i].jobs| && !Busy(states[i].callback, ref)
    ensures var s := states[i];
            var job, reports := s.jobs[ref], Reports(s.out, ref);
            && reports == Expected(job.base, job.observed)
            && EndsAtTerminal(job.observed)
            && (IsListed(s.listed, ref) <==> !Finished(job.observed))
            && TerminalCount(reports) == (if IsListed(s.listed, ref) then 0 else 1)
            && (!IsListed(s.listed, ref) ==> reports != [] && IsDone(reports[|reports| - 1]))
  {
    RunInv(states, actions, i);
    var s := states[i];
    var job := s.jobs[ref];
    assert JobInv(s, ref);
    assert Known(job.emitted) + [] == Known(job.emitted);
    TerminalOnce(job.base, job.observed);
  }

  lemma {:induction false} DestutterTail<T>(x: T, s: seq<T>)
    requires s != [] ==> s[0] != x
    ensures Destutter([x] + s)[1..] == Destutter(s)
    ensures Destutter([x] + s) == [x] + Destutter(s)
    decreases |s|
  {
    if s == [] {
      assert [x] + s == [x];
    } else if |s| == 1 {
      DestutterSnoc([x], s[0]);
      assert [x] + s == [x] + [s[0]];
    } else {
      var front, last := s[..|s| - 1], s[|s| - 1];
      assert s == front + [last];
      DestutterTail(x, front);
      ConsSnoc(x, front, last);
    }
  }

  lemma ConsSnoc<T>(x: T, front: seq<T>, last: T)
    requires front != [] && Destutter([x] + front) == [x] + Destutter(front)
    ensures Destutter([x] + (front + [last])) == [x] + Destutter(front + [last])
  {
    assert [x] + (front + [last]) == ([x] + front) + [last];
    DestutterSnoc([x] + front, last);
    DestutterSnoc(front, last);
    assert ([x] + front)[|front|] == front[|front| - 1];
  }

  /** For a submitted job, which has no status when it is put, the reports are simply the
      statuses seen with consecutive repeats removed. */
  lemma SubmittedJobReports(obs: seq<Status>)
    ensures Expected(None, obs) == Destutter(Known(obs))
  {
    DestutterTail(None, Known(obs));
  }

  // ---------- putting a JID again ----------

  /** The entries the callback thread still has to look at. */
  function Ahead(c: Thread): seq<(JID, Ref)> {
    if c.Sleeping? then [] else c.todo
  }

  /** Nobody will look at the job again: it is not listed, and the callback thread neither has
      it in hand nor has it ahead. */
  ghost predicate Gone(s: State, ref: Ref) {
    && ref < |s.jobs| && !IsListed(s.listed, ref) && !Busy(s.callback, ref)
    && forall i :: 0 <= i < |Ahead(s.callback)| ==> Ahead(s.callback)[i].1 != ref
  }

  lemma GoneStays(s: State, a: Action, ref: Ref)
    requires Gone(s, ref) && Enabled(s, a)
    ensures var s' := Apply(s, a);
            Gone(s', ref) && Reports(s'.out, ref) == Reports(s.out, ref) && s'.jobs[ref] == s.jobs[ref]
  {
    GoneStaysGone(s, a, ref);
    GoneIsSilent(s, a, ref);
  }

  /** A step looks at the first entry ahead, makes a new list of them, or leaves them alone. */
  lemma AheadAfter(s: State, a: Action)
    requires Enabled(s, a)
    ensures Ahead(Apply(s, a).callback)
         == if a.Snapshot? then a.items else if a.ReadOld? then Ahead(s.callback)[1..] else Ahead(s.callback)
  {
  }

  lemma ListedAfter(s: State, a: Action, ref: Ref)
    requires Enabled(s, a) && ref < |s.jobs| && !IsListed(s.listed, ref)
    ensures !IsListed(Apply(s, a).listed, ref)
  {
    var listed := Apply(s, a).listed;
    forall jid | jid in listed
      ensures listed[jid] != ref
    {
      assert (jid in s.listed && listed[jid] == s.listed[jid]) || listed[jid] == |s.jobs|;
    }
  }

  lemma BusyAfter(s: State, a: Action, ref: Ref)
    requires Enabled(s, a) && !Busy(s.callback, ref)
    ensures Busy(Apply(s, a).callback, ref) ==> a.ReadOld? && Ahead(s.callback)[0].1 == ref
  {
  }

  lemma GoneStaysGone(s: State, a: Action, ref: Ref)
    requires Gone(s, ref) && Enabled(s, a)
    ensures Gone(Apply(s, a), ref)
  {
    AheadAfter(s, a);
    ListedAfter(s, a, ref);
    BusyAfter(s, a, ref);
    forall i | a.Snapshot? && 0 <= i < |a.items|
      ensures a.items[i].1 != ref
    {
      assert s.listed[a.items[i].0] == a.items[i].1;
    }
    assert |s.jobs| <= |Apply(s, a).jobs|;
  }

  /** A step says at most one thing, and only a report is a SUCCESS CALLBACK. */
  lemma OneMessage(s: State, a: Action)
    requires Enabled(s, a)
    ensures var out := Apply(s, a).out;
            out == s.out || (|out| == |s.out| + 1 && out == s.out + [out[|s.out|]]
                             && (out[|s.out|].CallbackSuccess? ==> a.Report? && out[|s.out|].ref == s.callback.ref))
  {
  }

  /** Only the job in hand changes. */
  lemma OthersSame(s: State, a: Action, ref: Ref)
    requires Enabled(s, a) && ref < |s.jobs| && !Busy(s.callback, ref)
    ensures ref < |Apply(s, a).jobs| && Apply(s, a).jobs[ref] == s.jobs[ref]
  {
  }

  lemma GoneIsSilent(s: State, a: Action, ref: Ref)
    requires Gone(s, ref) && Enabled(s, a)
    ensures var s' := Apply(s, a);
            Reports(s'.out, ref) == Reports(s.out, ref) && ref < |s'.jobs| && s'.jobs[ref] == s.jobs[ref]
  {
    var out := Apply(s, a).out;
    OthersSame(s, a, ref);
    OneMessage(s, a);
    if out != s.out {
      ReportsSnoc(s.out, out[|s.out|], ref);
    }
  }

  lemma {:induction false} GoneForever(s: State, states: seq<State>, actions: seq<Action>, i: nat, j: nat, ref: Ref)
    requires IsRun(states, actions) && i <= j < |states| && Silent(s, states[i], ref)
    ensures Silent(s, states[j], ref)
    decreases j
  {
    if i < j {
      GoneForever(s, states, actions, i, j - 1, ref);
      SilentNext(states, actions, j - 1, s, ref);
    }
  }

  /** From `s` to `s'` nothing happened to the job, and nothing will. */
  ghost predicate Silent(s: State, s': State, ref: Ref) {
    && Gone(s', ref) && Reports(s'.out, ref) == Reports(s.out, ref)
    && ref < |s.jobs| && s'.jobs[ref] == s.jobs[ref]
  }

  lemma SilentOn(s: State, s': State, a: Action, ref: Ref)
    requires Silent(s, s', ref) && Enabled(s', a)
    ensures Silent(s, Apply(s', a), ref)
  {
    GoneStays(s', a, ref);
  }

  lemma SilentNext(states: seq<State>, actions: seq<Action>, j: nat, s: State, ref: Ref)
    requires IsRun(states, actions) && j < |actions| && Silent(s, states[j], ref)
    ensures Silent(s, states[j + 1], ref)
  {
    RunStep(states, actions, j);
    SilentOn(s, states[j], actions[j], ref);
  }

  lemma RunStep(states: seq<State>, actions: seq<Action>, i: nat)
    requires IsRun(states, actions) && i < |actions|
    ensures Enabled(states[i], actions[i]) && states[i + 1] == Apply(states[i], actions[i])
  {
    assert Goes(states, actions, i);
  }

  /** A put of a listed JID displaces a job.  If the callback thread has that job neither in
      hand nor ahead, then, whatever happens afterwards, polite or not, the job is never listed
      again, nothing more is reported about it, and no end of it is ever seen or reported. */
  lemma ImpolitePutLosesJob(states: seq<State>, actions: seq<Action>, i: nat, j: nat)
    requires IsRun(states, actions) && i < |actions| && i < j < |states|
    requires Inv(states[i]) && !Polite(states[i], actions[i])
    requires var ref := states[i].listed[actions[i].jid];
             !Busy(states[i].callback, ref)
             && forall k :: 0 <= k < |Ahead(states[i].callback)| ==> Ahead(states[i].callback)[k].1 != ref
    ensures var ref := states[i].listed[actions[i].jid];
            && ref < |states[j].jobs| && !IsListed(states[j].listed, ref)
            && Reports(states[j].out, ref) == Reports(states[i].out, ref)
            && TerminalCount(Reports(states[j].out, ref)) == 0 && !Finished(states[j].jobs[ref].observed)
  {
    var s, a := states[i], actions[i];
    var ref := s.listed[a.jid];
    RunStep(states, actions, i);
    DisplacedIsUnfinished(s, ref);
    assert IsListed(s.listed, ref) by {
      assert a.jid in s.listed;
    }
    var listed := states[i + 1].listed;
    forall jid | jid in listed
      ensures listed[jid] != ref
    {
    }
    assert Gone(states[i + 1], ref);
    GoneForever(states[i + 1], states, actions, i + 1, j, ref);
  }

  lemma DisplacedIsUnfinished(s: State, ref: Ref)
    requires Inv(s) && IsListed(s.listed, ref) && !Busy(s.callback, ref)
    ensures ref < |s.jobs| && !Finished(s.jobs[ref].observed) && TerminalCount(Reports(s.out, ref)) == 0
  {
    var job := s.jobs[ref];
    assert JobInv(s, ref);
    assert Known(job.emitted) + [] == Known(job.emitted);
    TerminalOnce(job.base, job.observed);
  }

  /** One more step. */
  lemma RunSnoc(states: seq<State>, actions: seq<Action>, a: Action, s: State)
    requires IsRun(states, actions) && Enabled(states[|actions|], a) && s == Apply(states[|actions|], a)
    ensures IsRun(states + [s], actions + [a])
  {
    var states', actions' := states + [s], actions + [a];
    forall i | 0 <= i < |actions'|
      ensures Goes(states', actions', i)
    {
      if i < |actions| {
        RunStep(states, actions, i);
      }
    }
  }

  /** A job is put, and the callback thread sees that it has ended. */
  lemma SeesTheEnd(jid: JID, st: Status) returns (states: seq<State>, actions: seq<Action>)
    ensures IsRun(states, actions)
    ensures states[|actions|] == State([Job(Some(st), None, [st], [])], map[jid := 0], Refreshed(jid, 0, None, []), map[], [])
  {
    var begun, seen := Job(None, None, [], []), Job(Some(st), None, [st], []);
    var s1 := State([begun], map[jid := 0], Sleeping, map[], []);
    var s2 := s1.(callback := Scanning([(jid, 0)]));
    var s3 := s1.(callback := HaveOld(jid, 0, None, []));
    var s4 := s1.(callback := Refreshed(jid, 0, None, []), jobs := [seen]);
    states, actions := [Initial], [];
    RunSnoc(states, actions, Submit(jid), s1);
    states, actions := states + [s1], actions + [Submit(jid)];
    RunSnoc(states, actions, Snapshot([(jid, 0)]), s2);
    states, actions := states + [s2], actions + [Snapshot([(jid, 0)])];
    assert [(jid, 0)][1..] == [];
    RunSnoc(states, actions, ReadOld, s3);
    states, actions := states + [s3], actions + [ReadOld];
    assert [] + [st] == [st] && [begun][0 := seen] == [seen];
    RunSnoc(states, actions, Refresh(st), s4);
    states, actions := states + [s4], actions + [Refresh(st)];
  }

  /** If the displaced job is the one being looked at, the callback thread takes the new job
      off the list in its stead, and the new job is never reported. */
  lemma DeleteHitsNewJob(st: Status) returns (states: seq<State>, actions: seq<Action>)
    requires Terminal(st)
    ensures IsRun(states, actions)
    ensures var s := states[|actions|];
            |s.jobs| == 2 && !IsListed(s.listed, 1) && s.jobs[1].observed == [] && Reports(s.out, 1) == []
            && s.callback == Scanning([])
  {
    var jid := "7";
    states, actions := SeesTheEnd(jid, st);
    var s4 := states[|actions|];
    var begun, seen := Job(None, None, [], []), s4.jobs[0];
    var s5 := s4.(jobs := [seen, begun], listed := map[jid := 1]);
    var s6 := s5.(callback := Deleting(jid, 0, Some(st), []));
    var s7 := s6.(callback := Reporting(jid, 0, Some(st), []), listed := map[]);
    var s8 := s7.(callback := Scanning([]), out := [CallbackSuccess(jid, 0, Some(st))],
                  jobs := [seen.(emitted := [st]), begun]);
    RunSnoc(states, actions, Submit(jid), s5);
    states, actions := states + [s5], actions + [Submit(jid)];
    RunSnoc(states, actions, ReadNew, s6);
    states, actions := states + [s6], actions + [ReadNew];
    assert s6.listed - {jid} == map[];
    RunSnoc(states, actions, Delete, s7);
    states, actions := states + [s7], actions + [Delete];
    ReportedFirst(s7, s8, jid, st);
    RunSnoc(states, actions, Report, s8);
    states, actions := states + [s8], actions + [Report];
  }

  lemma ReportedFirst(s7: State, s8: State, jid: JID, st: Status)
    requires |s7.jobs| == 2 && s7.jobs[0].emitted == [] && s7.out == []
    requires s7.callback == Reporting(jid, 0, Some(st), [])
    requires s8 == s7.(callback := Scanning([]), out := [CallbackSuccess(jid, 0, Some(st))],
                       jobs := [s7.jobs[0].(emitted := [st]), s7.jobs[1]])
    ensures s8 == Apply(s7, Report) && Reports(s8.out, 1) == []
  {
    assert [] + [st] == [st] && s7.out + s8.out == s8.out;
    assert s7.jobs[0 := s7.jobs[0].(emitted := [st])] == s8.jobs;
    assert s8.out[..0] == [];
  }

  // ---------- the object ----------

  /** `List`: a dictionary whose operations are atomic (list.py:24-75). */
  class List {
    var entries: map<JID, Ref>

    constructor ()
      ensures entries == map[]
    {
      entries := map[];
    }

    method Put(key: JID, value: Ref)
      modifies this
      ensures entries == old(entries)[key := value]
    {
      entries := entries[key := value];
    }

    method Get(key: JID) returns (value: Option<Ref>)
      ensures value == if key in entries then Some(entries[key]) else None
    {
      value := if key in entries then Some(entries[key]) else None;
    }

    /** No error if the key is missing. */
    method Remove(key: JID)
      modifies this
      ensures entries == old(entries) - {key}
    {
      entries := entries - {key};
    }

    method HasKey(key: JID) returns (found: bool)
      ensures found == (key in entries)
    {
      found := key in entries;
    }

    /** A copy of the entries, in any order. */
    method Items() returns (items: seq<(JID, Ref)>)
      ensures Enumerates(items, entries)
    {
      items := [];
      var todo := entries.Keys;
      while todo != {}
        invariant todo <= entries.Keys
        invariant forall i :: 0 <= i < |items| ==>
                    items[i].0 in entries && entries[items[i].0] == items[i].1 && items[i].0 !in todo
        invariant forall i, j :: 0 <= i < j < |items| ==> items[i].0 != items[j].0
        invariant forall jid :: jid in entries && jid !in todo ==> (jid, entries[jid]) in items
        decreases todo
      {
        var jid :| jid in todo;
        ghost var before := items;
        items := items + [(jid, entries[jid])];
        assert forall x :: x in before ==> x in items;
        assert items[|before|] == (jid, entries[jid]);
        todo := todo - {jid};
      }
    }
  }

  /** The execution manager; each method is one step of one of its threads. */
  class Mad {
    const jobList: List
    var jobs: seq<Job>
    var callback: Thread
    var polls: map<nat, Poll>
    var out: seq<Message>

    ghost function View(): State
      reads this, jobList
    {
      State(jobs, jobList.entries, callback, polls, out)
    }

    constructor ()
      ensures View() == Initial && fresh(jobList)
    {
      jobList := new List();
      jobs, callback, polls, out := [], Sleeping, map[], [];
    }

    /** Lines 131-132: a new job, submitted. */
    method StepSubmit(jid: JID)
      modifies this, jobList
      ensures View() == Apply(old(View()), Submit(jid))
    {
      jobs := jobs + [Job(None, None, [], [])];
      jobList.Put(jid, |jobs| - 1);
    }

    /** Lines 183-184: a job found again, its status refreshed before it is shared. */
    method StepRecover(jid: JID, status: Status)
      modifies this, jobList
      ensures View() == Apply(old(View()), Recover(jid, status))
    {
      jobs := jobs + [Job(Some(status), Some(status), [], [])];
      jobList.Put(jid, |jobs| - 1);
    }

    /** Line 199. */
    method StepSnapshot() returns (ghost items: seq<(JID, Ref)>)
      requires callback.Sleeping?
      modifies this
      ensures Enabled(old(View()), Snapshot(items)) && View() == Apply(old(View()), Snapshot(items))
    {
      var copy := jobList.Items();
      items := copy;
      callback := Scanning(copy);
    }

    /** One step of the body of the loop at lines 199-215; `seen` is what the job's own
        `jobStatus` answers if it is asked, None if it raises. */
    method StepCallback(seen: Option<Status>) returns (ghost a: Action)
      requires !callback.Sleeping? && Inv(View())
      modifies this, jobList
      ensures Enabled(old(View()), a) && View() == Apply(old(View()), a)
      ensures a.Refresh? || a.RefreshRaises? || a.ReadOld? || a.ReadNew? || a.Delete? || a.Report? || a.Sleep?
    {
      match callback
      case Scanning(todo) =>
        if todo == [] {
          callback := Sleeping;
          a := Sleep;
        } else {
          callback := HaveOld(todo[0].0, todo[0].1, jobs[todo[0].1].status, todo[1..]);
          a := ReadOld;
        }
      case HaveOld(jid, ref, old_, todo) =>
        match seen {
          case Some(st) =>
            jobs := jobs[ref := jobs[ref].(status := Some(st), observed := jobs[ref].observed + [st])];
            callback := Refreshed(jid, ref, old_, todo);
            a := Refresh(st);
          case None =>
            out := out + [CallbackFailure(jid)];
            callback := Scanning(todo);
            a := RefreshRaises;
        }
      case Refreshed(jid, ref, old_, todo) =>
        var new_ := jobs[ref].status;
        if new_ == Some("DONE") || new_ == Some("FAILED") {
          callback := Deleting(jid, ref, new_, todo);
        } else if old_ != new_ {
          callback := Reporting(jid, ref, new_, todo);
        } else {
          callback := Scanning(todo);
        }
        a := ReadNew;
      case Deleting(jid, ref, new_, todo) =>
        jobList.Remove(jid);
        callback := Reporting(jid, ref, new_, todo);
        a := Delete;
      case Reporting(jid, ref, new_, todo) =>
        out := out + [CallbackSuccess(jid, ref, new_)];
        jobs := jobs[ref := jobs[ref].(emitted := jobs[ref].emitted + (if new_.Some? then [new_.value] else []))];
        callback := Scanning(todo);
        a := Report;
    }

    /** One step of answering a CANCEL (lines 225-232); `works` tells whether `jobCancel`
        returns rather than raises. */
    method StepCancel(thread: nat, jid: JID, works: bool) returns (ghost a: Action)
      requires thread in polls ==> polls[thread].Cancelling?
      modifies this
      ensures a == if thread !in old(polls) then CancelAsk(thread, jid) else CancelGet(thread, works)
      ensures Enabled(old(View()), a) && View() == Apply(old(View()), a)
    {
      if thread !in polls {
        var found := jobList.HasKey(jid);
        if found {
          polls := polls[thread := Cancelling(jid)];
        } else {
          out := out + [CancelFailure(jid)];
        }
        a := CancelAsk(thread, jid);
      } else {
        var k := polls[thread].jid;
        var job := jobList.Get(k);
        var answer := if job.Some? && works then CancelSuccess(k, job.value) else CancelFailure(k);
        polls, out := polls - {thread}, out + [answer];
        a := CancelGet(thread, works);
      }
    }

    /** One step of answering a POLL (lines 159-166). */
    method StepPoll(thread: nat, jid: JID) returns (ghost a: Action)
      requires Inv(View()) && (thread in polls ==> !polls[thread].Cancelling?)
      modifies this
      ensures a == if thread !in old(polls) then PollAsk(thread, jid)
                   else if old(polls)[thread].Asked? then PollGet(thread) else PollRead(thread)
      ensures Enabled(old(View()), a) && View() == Apply(old(View()), a)
    {
      if thread !in polls {
        var found := jobList.HasKey(jid);
        if found {
          polls := polls[thread := Asked(jid)];
        } else {
          out := out + [PollFailure(jid)];
        }
        a := PollAsk(thread, jid);
      } else {
        match polls[thread] {
          case Asked(k) =>
            var job := jobList.Get(k);
            if job.Some? {
              polls := polls[thread := Holding(k, job.value)];
            } else {
              polls, out := polls - {thread}, out + [PollFailure(k)];
            }
            a := PollGet(thread);
          case Holding(k, ref) =>
            polls, out := polls - {thread}, out + [PollSuccess(k, ref, jobs[ref].status)];
            a := PollRead(thread);
          case Cancelling(_) =>
            assert false;
        }
      }
    }
  }
}
