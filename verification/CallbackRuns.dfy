/** When the execution manager keeps its promise that a job is listed until its end was seen,
over all runs, those that put a listed JID again included.
 */
module CallbackRuns {
  import opened Basics
  import opened Callback

  /** Every job whose end was not seen is listed. */
  ghost predicate Law(s: State) {
    forall ref :: 0 <= ref < |s.jobs| && !Finished(s.jobs[ref].observed) ==> IsListed(s.listed, ref)
  }

  /** Whatever the step takes off the list, or displaces, was seen to have ended. */
  predicate Good(s: State, a: Action) {
    match a
    case Submit(jid) => EndSeen(s, jid)
    case Recover(jid, _) => EndSeen(s, jid)
    case Delete => s.callback.Deleting? ==> EndSeen(s, s.callback.jid)
    case _ => true
  }

  /** The job listed under `jid`, if any, was seen to end. */
  predicate EndSeen(s: State, jid: JID) {
    jid in s.listed ==> s.listed[jid] < |s.jobs| && Finished(s.jobs[s.listed[jid]].observed)
  }

  // ---------- what holds in every run ----------

  /** The entry the callback thread has in hand and those ahead. */
  function Entries(c: Thread): seq<(JID, Ref)> {
    match c
    case Sleeping => []
    case Scanning(todo) => todo
    case HaveOld(jid, ref, _, todo) => [(jid, ref)] + todo
    case Refreshed(jid, ref, _, todo) => [(jid, ref)] + todo
    case Deleting(jid, ref, _, todo) => [(jid, ref)] + todo
    case Reporting(jid, ref, _, todo) => [(jid, ref)] + todo
  }

  predicate ListedOnce(listed: map<JID, Ref>, n: nat) {
    && (forall jid :: jid in listed ==> listed[jid] < n)
    && (forall j, k :: j in listed && k in listed && listed[j] == listed[k] ==> j == k)
  }

  /** Entries are about different jobs, each listed under its entry's JID or not at all. */
  predicate Apart(es: seq<(JID, Ref)>, listed: map<JID, Ref>, n: nat) {
    && (forall i, j :: 0 <= i < j < |es| ==> es[i].1 != es[j].1)
    && (forall i :: 0 <= i < |es| ==> es[i].1 < n)
    && (forall i, k :: 0 <= i < |es| && k in listed && listed[k] == es[i].1 ==> k == es[i].0)
  }

  /** A job seen to end is in the callback thread's hand, past its refresh, or is neither
      listed nor ahead. */
  ghost predicate EndIsHandled(s: State, ref: Ref)
    requires ref < |s.jobs|
  {
    Finished(s.jobs[ref].observed) && !((s.callback.Refreshed? || s.callback.Deleting?) && s.callback.ref == ref) ==>
      && !IsListed(s.listed, ref) && !(s.callback.HaveOld? && s.callback.ref == ref)
      && forall i :: 0 <= i < |Ahead(s.callback)| ==> Ahead(s.callback)[i].1 != ref
  }

  predicate InHand(s: State) {
    match s.callback
    case Refreshed(_, ref, _, _) =>
      ref < |s.jobs| && s.jobs[ref].observed != [] && s.jobs[ref].status == Latest(None, s.jobs[ref].observed)
    case Deleting(_, ref, _, _) => ref < |s.jobs| && Finished(s.jobs[ref].observed)
    case _ => true
  }

  ghost predicate Always(s: State) {
    && ListedOnce(s.listed, |s.jobs|)
    && Apart(Entries(s.callback), s.listed, |s.jobs|)
    && InHand(s)
    && forall ref :: 0 <= ref < |s.jobs| ==> EndIsHandled(s, ref)
  }

  lemma ApartTail(e: (JID, Ref), es: seq<(JID, Ref)>, listed: map<JID, Ref>, n: nat)
    requires Apart([e] + es, listed, n)
    ensures Apart(es, listed, n)
    ensures forall i :: 0 <= i < |es| ==> es[i].1 != e.1
    ensures e.1 < n && forall k :: k in listed && listed[k] == e.1 ==> k == e.0
  {
    var all := [e] + es;
    assert all[0] == e;
    assert forall i :: 0 <= i < |es| ==> all[i + 1] == es[i];
  }

  lemma PutAlways(s: State, jid: JID, job: Job)
    requires Always(s) && job.observed == []
    ensures Always(Put(s, jid, job))
  {
    var s' := Put(s, jid, job);
    forall ref | 0 <= ref < |s'.jobs|
      ensures EndIsHandled(s', ref)
    {
      if ref < |s.jobs| {
        assert EndIsHandled(s, ref);
        if IsListed(s'.listed, ref) {
          var k :| k in s'.listed && s'.listed[k] == ref;
          assert s.listed[k] == ref;
        }
      }
    }
  }

  lemma SnapshotAlways(s: State, items: seq<(JID, Ref)>)
    requires Always(s) && Enabled(s, Snapshot(items))
    ensures Always(Apply(s, Snapshot(items)))
  {
    var s' := Apply(s, Snapshot(items));
    forall ref | 0 <= ref < |s'.jobs|
      ensures EndIsHandled(s', ref)
    {
      assert EndIsHandled(s, ref);
      forall i | 0 <= i < |items| && items[i].1 == ref
        ensures IsListed(s.listed, ref)
      {
        assert s.listed[items[i].0] == ref;
      }
    }
  }

  /** Jobs that are not in hand stay handled when nothing happens to the list and nothing is
      added ahead. */
  lemma StaysHandled(s: State, s': State, ref: Ref)
    requires ref < |s.jobs| <= |s'.jobs| && EndIsHandled(s, ref) && s'.jobs[ref].observed == s.jobs[ref].observed
    requires IsListed(s'.listed, ref) ==> IsListed(s.listed, ref)
    requires forall i :: 0 <= i < |Ahead(s'.callback)| ==> Ahead(s'.callback)[i] in Ahead(s.callback)
    requires (s.callback.Refreshed? || s.callback.Deleting?) && s.callback.ref == ref ==>
               (s'.callback.Refreshed? || s'.callback.Deleting?) && s'.callback.ref == ref
    requires s'.callback.HaveOld? && s'.callback.ref == ref ==> exists e :: e in Ahead(s.callback) && e.1 == ref
    ensures EndIsHandled(s', ref)
  {
  }

  lemma ReadOldAlways(s: State)
    requires Always(s) && Enabled(s, ReadOld)
    ensures Always(Apply(s, ReadOld))
  {
    var s', todo := Apply(s, ReadOld), s.callback.todo;
    assert Entries(s'.callback) == todo by {
      assert [todo[0]] + todo[1..] == todo && todo[0] == (todo[0].0, todo[0].1);
    }
    forall ref | 0 <= ref < |s'.jobs|
      ensures EndIsHandled(s', ref)
    {
      assert EndIsHandled(s, ref);
      assert todo[0] in Ahead(s.callback);
      StaysHandled(s, s', ref);
    }
  }

  lemma RefreshAlways(s: State, st: Status)
    requires Always(s) && Enabled(s, Refresh(st))
    ensures Always(Apply(s, Refresh(st)))
    ensures !Finished(s.jobs[s.callback.ref].observed)
  {
    var s', c := Apply(s, Refresh(st)), s.callback;
    assert EndIsHandled(s, c.ref);
    ApartTail((c.jid, c.ref), c.todo, s.listed, |s.jobs|);
    assert Ahead(s'.callback) == Ahead(s.callback) == c.todo;
    forall ref | 0 <= ref < |s'.jobs|
      ensures EndIsHandled(s', ref)
    {
      assert EndIsHandled(s, ref);
    }
  }

  lemma SleepAlways(s: State)
    requires Always(s) && Enabled(s, Sleep)
    ensures Always(Apply(s, Sleep))
  {
    var s' := Apply(s, Sleep);
    forall ref | 0 <= ref < |s'.jobs|
      ensures EndIsHandled(s', ref)
    {
      assert EndIsHandled(s, ref);
    }
  }

  lemma RaisesAlways(s: State)
    requires Always(s) && Enabled(s, RefreshRaises)
    ensures Always(Apply(s, RefreshRaises))
  {
    var s', c := Apply(s, RefreshRaises), s.callback;
    ApartTail((c.jid, c.ref), c.todo, s.listed, |s.jobs|);
    assert Ahead(s'.callback) == Ahead(s.callback) == c.todo;
    forall ref | 0 <= ref < |s'.jobs|
      ensures EndIsHandled(s', ref)
    {
      assert EndIsHandled(s, ref);
    }
  }

  lemma ReadNewAlways(s: State)
    requires Always(s) && Enabled(s, ReadNew)
    ensures Always(Apply(s, ReadNew))
  {
    var s', c := Apply(s, ReadNew), s.callback;
    ApartTail((c.jid, c.ref), c.todo, s.listed, |s.jobs|);
    assert Ahead(s'.callback) == Ahead(s.callback) == c.todo;
    assert s'.callback.Deleting? <==> Finished(s.jobs[c.ref].observed);
    forall ref | 0 <= ref < |s'.jobs|
      ensures EndIsHandled(s', ref)
    {
      assert EndIsHandled(s, ref);
    }
  }

  lemma DeleteAlways(s: State)
    requires Always(s) && Enabled(s, Delete)
    ensures Always(Apply(s, Delete))
  {
    var s', c := Apply(s, Delete), s.callback;
    ApartTail((c.jid, c.ref), c.todo, s.listed, |s.jobs|);
    assert Ahead(s'.callback) == Ahead(s.callback) == c.todo;
    forall ref | 0 <= ref < |s'.jobs|
      ensures EndIsHandled(s', ref)
    {
      assert EndIsHandled(s, ref);
      if IsListed(s'.listed, ref) {
        var k :| k in s'.listed && s'.listed[k] == ref;
        assert s.listed[k] == ref;
      }
    }
  }

  lemma ReportAlways(s: State)
    requires Always(s) && Enabled(s, Report)
    ensures Always(Apply(s, Report))
  {
    var s', c := Apply(s, Report), s.callback;
    ApartTail((c.jid, c.ref), c.todo, s.listed, |s.jobs|);
    assert Ahead(s'.callback) == Ahead(s.callback) == c.todo;
    forall ref | 0 <= ref < |s'.jobs|
      ensures EndIsHandled(s', ref)
    {
      assert EndIsHandled(s, ref);
    }
  }

  lemma OtherAlways(s: State, a: Action)
    requires Always(s) && Enabled(s, a)
    requires a.PollAsk? || a.PollGet? || a.PollRead? || a.CancelAsk? || a.CancelGet?
    ensures Always(Apply(s, a))
  {
    var s' := Apply(s, a);
    forall ref | 0 <= ref < |s'.jobs|
      ensures EndIsHandled(s', ref)
    {
      assert EndIsHandled(s, ref);
    }
  }

  lemma StepAlways(s: State, a: Action)
    requires Always(s) && Enabled(s, a)
    ensures Always(Apply(s, a))
  {
    match a
    case Submit(jid) => PutAlways(s, jid, Job(None, None, [], []));
    case Recover(jid, st) => PutAlways(s, jid, Job(Some(st), Some(st), [], []));
    case Snapshot(items) => SnapshotAlways(s, items);
    case ReadOld => ReadOldAlways(s);
    case Refresh(st) => RefreshAlways(s, st);
    case RefreshRaises => RaisesAlways(s);
    case ReadNew => ReadNewAlways(s);
    case Sleep => SleepAlways(s);
    case Delete => DeleteAlways(s);
    case Report => ReportAlways(s);
    case PollAsk(_, _) => OtherAlways(s, a);
    case PollGet(_) => OtherAlways(s, a);
    case PollRead(_) => OtherAlways(s, a);
    case CancelAsk(_, _) => OtherAlways(s, a);
    case CancelGet(_, _) => OtherAlways(s, a);
  }

  lemma {:induction false} RunAlways(states: seq<State>, actions: seq<Action>, i: nat)
    requires IsRun(states, actions) && i < |states|
    ensures Always(states[i])
  {
    if i > 0 {
      RunAlways(states, actions, i - 1);
      RunStep(states, actions, i - 1);
      StepAlways(states[i - 1], actions[i - 1]);
    }
  }

  // ---------- the law ----------

  lemma PutLaw(s: State, jid: JID, job: Job)
    requires Always(s) && Law(s) && job.observed == []
    ensures Law(Put(s, jid, job)) <==> EndSeen(s, jid)
  {
    var s', n := Put(s, jid, job), |s.jobs|;
    assert s'.listed[jid] == n;
    if EndSeen(s, jid) {
      forall ref | 0 <= ref < |s'.jobs| && !Finished(s'.jobs[ref].observed)
        ensures IsListed(s'.listed, ref)
      {
        if ref < n {
          assert s'.jobs[ref] == s.jobs[ref];
          var k :| k in s.listed && s.listed[k] == ref;
          assert s'.listed[k] == ref;
        }
      }
    } else {
      var ref := s.listed[jid];
      assert s'.jobs[ref] == s.jobs[ref] && !Finished(s'.jobs[ref].observed);
      forall k | k in s'.listed
        ensures s'.listed[k] != ref
      {
      }
    }
  }

  lemma DeleteLaw(s: State)
    requires Always(s) && Law(s) && Enabled(s, Delete)
    ensures Law(Apply(s, Delete)) <==> EndSeen(s, s.callback.jid)
  {
    var s', jid := Apply(s, Delete), s.callback.jid;
    if EndSeen(s, jid) {
      forall ref | 0 <= ref < |s'.jobs| && !Finished(s'.jobs[ref].observed)
        ensures IsListed(s'.listed, ref)
      {
        var k :| k in s.listed && s.listed[k] == ref;
        assert k in s'.listed && s'.listed[k] == ref;
      }
    } else {
      var ref := s.listed[jid];
      forall k | k in s'.listed
        ensures s'.listed[k] != ref
      {
      }
      assert !Finished(s'.jobs[ref].observed);
    }
  }

  lemma RestLaw(s: State, a: Action)
    requires Always(s) && Law(s) && Enabled(s, a) && !a.Submit? && !a.Recover? && !a.Delete?
    ensures Law(Apply(s, a))
  {
    var s' := Apply(s, a);
    if a.Refresh? {
      RefreshAlways(s, a.status);
    }
    forall ref | 0 <= ref < |s'.jobs| && !Finished(s'.jobs[ref].observed)
      ensures IsListed(s'.listed, ref)
    {
      assert !Finished(s.jobs[ref].observed);
      assert s'.listed == s.listed;
    }
  }

  /** A step breaks the promise exactly if it is not good. */
  lemma StepLaw(s: State, a: Action)
    requires Always(s) && Law(s) && Enabled(s, a)
    ensures Law(Apply(s, a)) <==> Good(s, a)
  {
    match a
    case Submit(jid) => PutLaw(s, jid, Job(None, None, [], []));
    case Recover(jid, st) => PutLaw(s, jid, Job(Some(st), Some(st), [], []));
    case Delete => DeleteLaw(s);
    case _ => RestLaw(s, a);
  }

  lemma {:induction false} GoodKeepsLaw(states: seq<State>, actions: seq<Action>, i: nat)
    requires IsRun(states, actions) && i < |states|
    requires forall k :: 0 <= k < |actions| ==> Good(states[k], actions[k])
    ensures Law(states[i])
  {
    if i > 0 {
      GoodKeepsLaw(states, actions, i - 1);
      RunAlways(states, actions, i - 1);
      RunStep(states, actions, i - 1);
      StepLaw(states[i - 1], actions[i - 1]);
    }
  }

  /** Over any run, every job is listed until its end was seen if and only if every put finds
      its JID free or held by a job seen to end, and every delete the same. */
  lemma LawExactly(states: seq<State>, actions: seq<Action>)
    requires IsRun(states, actions)
    ensures (forall i :: 0 <= i < |states| ==> Law(states[i]))
       <==> forall i :: 0 <= i < |actions| ==> Good(states[i], actions[i])
  {
    if forall i :: 0 <= i < |states| ==> Law(states[i]) {
      forall i | 0 <= i < |actions|
        ensures Good(states[i], actions[i])
      {
        RunAlways(states, actions, i);
        assert Law(states[i]) && Law(states[i + 1]);
        RunStep(states, actions, i);
        StepLaw(states[i], actions[i]);
      }
    }
    if forall i :: 0 <= i < |actions| ==> Good(states[i], actions[i]) {
      forall i | 0 <= i < |states|
        ensures Law(states[i])
      {
        GoodKeepsLaw(states, actions, i);
      }
    }
  }

  // ---------- what is reported, polite or not ----------

  /** What is known and has been said of a job, wherever it is. */
  ghost predicate Said(s: State, ref: Ref)
    requires ref < |s.jobs|
  {
    var job := s.jobs[ref];
    && job.status == Latest(job.base, job.observed)
    && EndsAtTerminal(job.observed)
    && Reports(s.out, ref) == Known(job.emitted)
    && Known(job.emitted) + Due(s.callback, ref, job) == Expected(job.base, job.observed)
  }

  /** What the callback thread remembers of the job in its hand. */
  predicate Remembers(s: State) {
    match s.callback
    case HaveOld(_, ref, old_, _) => ref < |s.jobs| && old_ == s.jobs[ref].status
    case Refreshed(_, ref, _, _) => ref < |s.jobs|
    case Deleting(_, ref, new_, _) => ref < |s.jobs| && new_ == s.jobs[ref].status && IsDone(new_)
    case Reporting(_, ref, new_, _) => ref < |s.jobs| && new_ == s.jobs[ref].status && new_.Some?
    case _ => true
  }

  predicate AboutJobs(s: State) {
    forall i :: 0 <= i < |s.out| && s.out[i].CallbackSuccess? ==> s.out[i].ref < |s.jobs|
  }

  ghost predicate Truthful(s: State) {
    && Always(s) && Remembers(s) && AboutJobs(s)
    && forall ref :: 0 <= ref < |s.jobs| ==> Said(s, ref)
  }

  /** Jobs a step has nothing to do with. */
  lemma StaysSaid(s: State, s': State, ref: Ref)
    requires ref < |s.jobs| <= |s'.jobs| && Said(s, ref) && s'.jobs[ref] == s.jobs[ref]
    requires Reports(s'.out, ref) == Reports(s.out, ref)
    requires Due(s'.callback, ref, s.jobs[ref]) == Due(s.callback, ref, s.jobs[ref])
    ensures Said(s', ref)
  {
  }

  lemma PutSaid(s: State, jid: JID, job: Job)
    requires Truthful(s) && job.status == job.base && job.observed == [] && job.emitted == []
    ensures Truthful(Put(s, jid, job))
  {
    var s', n := Put(s, jid, job), |s.jobs|;
    PutAlways(s, jid, job);
    NoReports(s.out, n);
    assert [job.base] + Known([]) == [job.base];
    forall ref | 0 <= ref < |s'.jobs|
      ensures Said(s', ref)
    {
      if ref < n {
        StaysSaid(s, s', ref);
      }
    }
  }

  lemma RefreshSaid(s: State, st: Status)
    requires Truthful(s) && Enabled(s, Refresh(st))
    ensures Truthful(Apply(s, Refresh(st)))
  {
    var s', c := Apply(s, Refresh(st)), s.callback;
    RefreshAlways(s, st);
    forall ref | 0 <= ref < |s'.jobs|
      ensures Said(s', ref)
    {
      assert Said(s, ref);
      if ref == c.ref {
        var job := s.jobs[ref];
        assert Known(job.emitted) + [] == Known(job.emitted);
        SeenMore(job, st);
      } else {
        StaysSaid(s, s', ref);
      }
    }
  }

  lemma ReportSaid(s: State)
    requires Truthful(s) && Enabled(s, Report)
    ensures Truthful(Apply(s, Report))
  {
    var s', c := Apply(s, Report), s.callback;
    ReportAlways(s);
    forall ref | 0 <= ref < |s'.jobs|
      ensures Said(s', ref)
    {
      assert Said(s, ref);
      ReportsSnoc(s.out, CallbackSuccess(c.jid, c.ref, c.new_), ref);
      if ref == c.ref {
        OneMoreReport(s.jobs[ref].emitted, c.new_.value);
      } else {
        StaysSaid(s, s', ref);
      }
    }
  }

  /** Steps that change no job and send no SUCCESS CALLBACK. */
  predicate Quiet(a: Action) {
    !a.Submit? && !a.Recover? && !a.Refresh? && !a.Report?
  }

  lemma QuietDue(s: State, a: Action, ref: Ref)
    requires Remembers(s) && Enabled(s, a) && Quiet(a) && ref < |s.jobs|
    ensures Due(Apply(s, a).callback, ref, s.jobs[ref]) == Due(s.callback, ref, s.jobs[ref])
  {
  }

  lemma QuietReports(s: State, a: Action, ref: Ref)
    requires Enabled(s, a) && Quiet(a)
    ensures Reports(Apply(s, a).out, ref) == Reports(s.out, ref)
    ensures AboutJobs(s) ==> AboutJobs(Apply(s, a))
  {
    var out := Apply(s, a).out;
    OneMessage(s, a);
    QuietJobs(s, a);
    if out != s.out {
      ReportsSnoc(s.out, out[|s.out|], ref);
    }
  }

  lemma QuietJobs(s: State, a: Action)
    requires Enabled(s, a) && Quiet(a)
    ensures Apply(s, a).jobs == s.jobs
  {
  }

  lemma QuietRemembers(s: State, a: Action)
    requires Always(s) && Remembers(s) && Enabled(s, a) && Quiet(a) && forall ref :: 0 <= ref < |s.jobs| ==> Said(s, ref)
    ensures Remembers(Apply(s, a))
  {
    if a.ReadNew? {
      assert Said(s, s.callback.ref);
    }
  }

  lemma QuietSaid(s: State, a: Action)
    requires Truthful(s) && Enabled(s, a) && Quiet(a)
    ensures Truthful(Apply(s, a))
  {
    var s' := Apply(s, a);
    StepAlways(s, a);
    QuietRemembers(s, a);
    QuietReports(s, a, 0);
    QuietJobs(s, a);
    forall ref | 0 <= ref < |s'.jobs|
      ensures Said(s', ref)
    {
      QuietDue(s, a, ref);
      QuietReports(s, a, ref);
      StaysSaid(s, s', ref);
    }
  }

  lemma StepSaid(s: State, a: Action)
    requires Truthful(s) && Enabled(s, a)
    ensures Truthful(Apply(s, a))
  {
    match a
    case Submit(jid) => PutSaid(s, jid, Job(None, None, [], []));
    case Recover(jid, st) => PutSaid(s, jid, Job(Some(st), Some(st), [], []));
    case Refresh(st) => RefreshSaid(s, st);
    case Report => ReportSaid(s);
    case _ => QuietSaid(s, a);
  }

  lemma {:induction false} RunSaid(states: seq<State>, actions: seq<Action>, i: nat)
    requires IsRun(states, actions) && i < |states|
    ensures Truthful(states[i])
  {
    if i > 0 {
      RunSaid(states, actions, i - 1);
      RunStep(states, actions, i - 1);
      StepSaid(states[i - 1], actions[i - 1]);
    }
  }

  /** In every run, polite or not, what is reported of a job between two of its turns is what
      is expected from what was seen of it, with one terminal status, at the end, if it was
      seen to end and none otherwise. */
  lemma ReportsAreExpected(states: seq<State>, actions: seq<Action>, i: nat, ref: Ref)
    requires IsRun(states, actions) && i < |states|
    requires ref < |states[i].jobs| && !Busy(states[i].callback, ref)
    ensures var job, reports := states[i].jobs[ref], Reports(states[i].out, ref);
            && reports == Expected(job.base, job.observed) && EndsAtTerminal(job.observed)
            && TerminalCount(reports) == (if Finished(job.observed) then 1 else 0)
            && (Finished(job.observed) ==> reports != [] && IsDone(reports[|reports| - 1]))
  {
    RunSaid(states, actions, i);
    var job := states[i].jobs[ref];
    assert Said(states[i], ref);
    assert Known(job.emitted) + [] == Known(job.emitted);
    TerminalOnce(job.base, job.observed);
  }

  // ---------- a displaced job that is ahead ----------

  /** The displaced job is still reported if the callback thread has it ahead; but its delete
      takes the new job off the list, of which nothing was ever seen. */
  lemma AheadIsReported(jid: JID, st: Status) returns (states: seq<State>, actions: seq<Action>)
    requires Terminal(st)
    ensures IsRun(states, actions) && |actions| == 8 && !Polite(states[2], actions[2])
    ensures jid in states[2].listed && states[2].listed[jid] == 0 && !Busy(states[2].callback, 0)
    ensures var s := states[8];
            && |s.jobs| == 2 && Reports(s.out, 0) == [Some(st)]
            && !IsListed(s.listed, 1) && s.jobs[1].observed == []
  {
    states, actions := PutScanPut(jid);
    var before := states;
    states, actions := EndIsSeen(states, actions, jid, st);
    assert states[2] == before[2];
    states, actions := EndIsReported(states, actions, jid, st);
  }

  lemma EndIsSeen(before: seq<State>, done: seq<Action>, jid: JID, st: Status)
    returns (states: seq<State>, actions: seq<Action>)
    requires IsRun(before, done)
    requires var begun := Job(None, None, [], []);
             before[|done|] == State([begun, begun], map[jid := 1], Scanning([(jid, 0)]), map[], [])
    ensures IsRun(states, actions) && |actions| == |done| + 2
    ensures forall i :: 0 <= i < |before| ==> states[i] == before[i]
    ensures forall i :: 0 <= i < |done| ==> actions[i] == done[i]
    ensures states[|actions|] == State([Job(Some(st), None, [st], []), Job(None, None, [], [])], map[jid := 1],
                                       Refreshed(jid, 0, None, []), map[], [])
  {
    var begun, seen := Job(None, None, [], []), Job(Some(st), None, [st], []);
    states, actions := before, done;
    var s4 := before[|done|].(callback := HaveOld(jid, 0, None, []));
    var s5 := s4.(callback := Refreshed(jid, 0, None, []), jobs := [seen, begun]);
    assert [(jid, 0)][1..] == [];
    RunSnoc(states, actions, ReadOld, s4);
    states, actions := states + [s4], actions + [ReadOld];
    assert [] + [st] == [st] && [begun, begun][0 := seen] == [seen, begun];
    RunSnoc(states, actions, Refresh(st), s5);
    states, actions := states + [s5], actions + [Refresh(st)];
  }

  lemma PutScanPut(jid: JID) returns (states: seq<State>, actions: seq<Action>)
    ensures IsRun(states, actions) && |actions| == 3 && actions[2] == Submit(jid)
    ensures var begun := Job(None, None, [], []);
            && states[2] == State([begun], map[jid := 0], Scanning([(jid, 0)]), map[], [])
            && states[3] == State([begun, begun], map[jid := 1], Scanning([(jid, 0)]), map[], [])
  {
    var begun := Job(None, None, [], []);
    var s1 := State([begun], map[jid := 0], Sleeping, map[], []);
    var s2 := s1.(callback := Scanning([(jid, 0)]));
    var s3 := s2.(jobs := [begun, begun], listed := map[jid := 1]);
    states, actions := [Initial], [];
    RunSnoc(states, actions, Submit(jid), s1);
    states, actions := states + [s1], actions + [Submit(jid)];
    RunSnoc(states, actions, Snapshot([(jid, 0)]), s2);
    states, actions := states + [s2], actions + [Snapshot([(jid, 0)])];
    RunSnoc(states, actions, Submit(jid), s3);
    states, actions := states + [s3], actions + [Submit(jid)];
  }

  lemma EndIsReported(before: seq<State>, done: seq<Action>, jid: JID, st: Status)
    returns (states: seq<State>, actions: seq<Action>)
    requires Terminal(st) && IsRun(before, done)
    requires before[|done|] == State([Job(Some(st), None, [st], []), Job(None, None, [], [])], map[jid := 1],
                                     Refreshed(jid, 0, None, []), map[], [])
    ensures IsRun(states, actions) && |actions| == |done| + 3
    ensures forall i :: 0 <= i < |before| ==> states[i] == before[i]
    ensures forall i :: 0 <= i < |done| ==> actions[i] == done[i]
    ensures var s := states[|actions|];
            && |s.jobs| == 2 && Reports(s.out, 0) == [Some(st)]
            && !IsListed(s.listed, 1) && s.jobs[1].observed == []
  {
    states, actions := before, done;
    var s5 := before[|done|];
    var begun, seen := s5.jobs[1], s5.jobs[0];
    var s6 := s5.(callback := Deleting(jid, 0, Some(st), []));
    var s7 := s6.(callback := Reporting(jid, 0, Some(st), []), listed := map[]);
    var s8 := s7.(callback := Scanning([]), out := [CallbackSuccess(jid, 0, Some(st))],
                  jobs := [seen.(emitted := [st]), begun]);
    RunSnoc(states, actions, ReadNew, s6);
    states, actions := states + [s6], actions + [ReadNew];
    assert s6.listed - {jid} == map[];
    RunSnoc(states, actions, Delete, s7);
    states, actions := states + [s7], actions + [Delete];
    ReportedFirst(s7, s8, jid, st);
    ReportsSnoc([], CallbackSuccess(jid, 0, Some(st)), 0);
    assert [] + s8.out == s8.out;
    RunSnoc(states, actions, Report, s8);
    states, actions := states + [s8], actions + [Report];
  }
}
