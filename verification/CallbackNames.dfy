/** The callback protocol as it is seen from outside, over all runs, those that put a listed JID
again included: which JID each message carries, what is printed under a JID, which question
each answer belongs to, and what one scan of the list asks.

The messages of `Callback` name the job object they are about; here it is tied to the step that
made the object, and that one to the JID the message prints.
 */
module CallbackNames {
  import opened Basics
  import opened Callback
  import opened CallbackRuns

  // ---------- jobs and the steps that made them ----------

  /** The JIDs jobs were put under, in order, each with the status it was put with. */
  function Puts(actions: seq<Action>): seq<(JID, Option<Status>)> {
    if actions == [] then [] else
      Puts(actions[..|actions| - 1]) +
      match actions[|actions| - 1] {
        case Submit(jid) => [(jid, None)]
        case Recover(jid, st) => [(jid, Some(st))]
        case _ => []
      }
  }

  /** The step asks for the status of the job `ref`, found under `jid`. */
  predicate AsksFor(s: State, a: Action, e: (JID, Ref)) {
    (a.Refresh? || a.RefreshRaises?) && s.callback.HaveOld? && (s.callback.jid, s.callback.ref) == e
  }

  /** What the first `n` steps were told of the job `ref`. */
  function Seen(states: seq<State>, actions: seq<Action>, n: nat, ref: Ref): seq<Status>
    requires n <= |actions| < |states|
  {
    if n == 0 then []
    else
      Seen(states, actions, n - 1, ref) +
      if actions[n - 1].Refresh? && states[n - 1].callback.HaveOld? && states[n - 1].callback.ref == ref
      then [actions[n - 1].status] else []
  }

  /** A job known under a JID was put under it. */
  predicate Named(puts: seq<(JID, Option<Status>)>, jid: JID, ref: Ref) {
    ref < |puts| && puts[ref].0 == jid
  }

  predicate MessageNamed(puts: seq<(JID, Option<Status>)>, m: Message) {
    m.PollSuccess? || m.CancelSuccess? || m.CallbackSuccess? ==> Named(puts, m.jid, m.ref)
  }

  /** Wherever a job appears beside a JID, it was put under that JID. */
  ghost predicate AllNamed(s: State, puts: seq<(JID, Option<Status>)>) {
    && |s.jobs| == |puts|
    && (forall jid :: jid in s.listed ==> Named(puts, jid, s.listed[jid]))
    && (forall i :: 0 <= i < |Entries(s.callback)| ==> Named(puts, Entries(s.callback)[i].0, Entries(s.callback)[i].1))
    && (forall t :: t in s.polls && s.polls[t].Holding? ==> Named(puts, s.polls[t].jid, s.polls[t].ref))
    && (forall i :: 0 <= i < |s.out| ==> MessageNamed(puts, s.out[i]))
  }

  /** A step looks at entries it had already, but for a new copy of the list. */
  lemma EntriesAfter(s: State, a: Action)
    requires Enabled(s, a)
    ensures forall i :: 0 <= i < |Entries(Apply(s, a).callback)| ==>
              Entries(Apply(s, a).callback)[i] in if a.Snapshot? then a.items else Entries(s.callback)
  {
    var es, es' := Entries(s.callback), Entries(Apply(s, a).callback);
    if a.ReadOld? {
      assert [es[0]] + es[1..] == es && (es[0].0, es[0].1) == es[0];
    } else if a.RefreshRaises? || a.ReadNew? || a.Report? {
      assert es == [(s.callback.jid, s.callback.ref)] + s.callback.todo;
      assert forall i :: 0 <= i < |s.callback.todo| ==> es[i + 1] == s.callback.todo[i];
    }
  }

  lemma EntriesNamed(s: State, a: Action, puts: seq<(JID, Option<Status>)>)
    requires Enabled(s, a) && AllNamed(s, puts)
    ensures forall i :: 0 <= i < |Entries(Apply(s, a).callback)| ==>
              Named(puts, Entries(Apply(s, a).callback)[i].0, Entries(Apply(s, a).callback)[i].1)
  {
    EntriesAfter(s, a);
    forall i | 0 <= i < |Entries(Apply(s, a).callback)|
      ensures Named(puts, Entries(Apply(s, a).callback)[i].0, Entries(Apply(s, a).callback)[i].1)
    {
      var e := Entries(Apply(s, a).callback)[i];
      if a.Snapshot? {
        assert e.0 in s.listed && s.listed[e.0] == e.1;
      }
    }
  }

  /** The message of a step, if it makes one. */
  lemma MessageNew(s: State, a: Action, puts: seq<(JID, Option<Status>)>)
    requires Enabled(s, a) && AllNamed(s, puts)
    ensures forall i :: 0 <= i < |Apply(s, a).out| ==> MessageNamed(puts, Apply(s, a).out[i])
  {
    if a.Report? {
      assert Named(puts, Entries(s.callback)[0].0, Entries(s.callback)[0].1);
    }
  }

  lemma StepNamed(s: State, a: Action, puts: seq<(JID, Option<Status>)>, more: seq<(JID, Option<Status>)>)
    requires Enabled(s, a) && AllNamed(s, puts)
    requires more == match a { case Submit(jid) => [(jid, None)] case Recover(jid, st) => [(jid, Some(st))] case _ => [] }
    ensures AllNamed(Apply(s, a), puts + more)
  {
    EntriesNamed(s, a, puts);
    MessageNew(s, a, puts);
    assert forall jid, ref :: Named(puts, jid, ref) ==> Named(puts + more, jid, ref);
    if a.Submit? || a.Recover? {
      assert (puts + more)[|puts|] == more[0];
    } else {
      assert puts + more == puts;
    }
  }

  /** In every run, whatever is printed about a job, and wherever else it is known by a JID, the
      JID is the one of the step that put it. */
  lemma {:induction false} JobsKeepTheirNames(states: seq<State>, actions: seq<Action>, i: nat)
    requires IsRun(states, actions) && i < |states|
    ensures AllNamed(states[i], Puts(actions[..i]))
  {
    if i > 0 {
      JobsKeepTheirNames(states, actions, i - 1);
      RunStep(states, actions, i - 1);
      PutsStep(actions, i - 1);
      StepNamed(states[i - 1], actions[i - 1], Puts(actions[..i - 1]), PutBy(actions[i - 1]));
    }
  }

  function PutBy(a: Action): seq<(JID, Option<Status>)> {
    match a
    case Submit(jid) => [(jid, None)]
    case Recover(jid, st) => [(jid, Some(st))]
    case _ => []
  }

  lemma PutsStep(actions: seq<Action>, i: nat)
    requires i < |actions|
    ensures Puts(actions[..i + 1]) == Puts(actions[..i]) + PutBy(actions[i])
  {
    var most := actions[..i + 1];
    assert most[..|most| - 1] == actions[..i] && most[|most| - 1] == actions[i];
  }

  /** What a job object remembers is what it was put with and what was seen of it. */
  ghost predicate Remembered(s: State, states: seq<State>, actions: seq<Action>, i: nat)
    requires i <= |actions| < |states|
  {
    && |s.jobs| == |Puts(actions[..i])|
    && forall ref :: 0 <= ref < |s.jobs| ==>
         s.jobs[ref].base == Puts(actions[..i])[ref].1 && s.jobs[ref].observed == Seen(states, actions, i, ref)
  }

  /** What one step adds to a job that was put before. */
  lemma SeenOnce(s: State, a: Action, ref: Ref)
    requires Enabled(s, a) && ref < |s.jobs|
    ensures ref < |Apply(s, a).jobs| && Apply(s, a).jobs[ref].base == s.jobs[ref].base
    ensures Apply(s, a).jobs[ref].observed == s.jobs[ref].observed +
              if a.Refresh? && s.callback.HaveOld? && s.callback.ref == ref then [a.status] else []
  {
    var observed := s.jobs[ref].observed;
    assert observed + [] == observed;
  }

  lemma PutRemembers(s: State, a: Action)
    requires Enabled(s, a)
    ensures |Apply(s, a).jobs| == |s.jobs| + |PutBy(a)|
    ensures PutBy(a) != [] ==>
              Apply(s, a).jobs[|s.jobs|].base == PutBy(a)[0].1 && Apply(s, a).jobs[|s.jobs|].observed == []
  {
  }

  lemma {:induction false} JobsRemember(states: seq<State>, actions: seq<Action>, i: nat)
    requires IsRun(states, actions) && i < |states|
    ensures Remembered(states[i], states, actions, i)
  {
    if i > 0 {
      JobsRemember(states, actions, i - 1);
      RememberedAfter(states, actions, i - 1);
    }
  }

  lemma RememberedAfter(states: seq<State>, actions: seq<Action>, i: nat)
    requires IsRun(states, actions) && i < |actions| && Remembered(states[i], states, actions, i)
    ensures Remembered(states[i + 1], states, actions, i + 1)
  {
    RunStep(states, actions, i);
    PutsStep(actions, i);
    PutRemembers(states[i], actions[i]);
    var jobs := states[i + 1].jobs;
    forall ref | 0 <= ref < |jobs|
      ensures jobs[ref].base == Puts(actions[..i + 1])[ref].1
      ensures jobs[ref].observed == Seen(states, actions, i + 1, ref)
    {
      if ref < |states[i].jobs| {
        SeenOnce(states[i], actions[i], ref);
      } else {
        NothingSeen(states, actions, i + 1, ref);
      }
    }
  }

  /** Nothing is seen of a job before it is put. */
  lemma {:induction false} NothingSeen(states: seq<State>, actions: seq<Action>, i: nat, ref: Ref)
    requires IsRun(states, actions) && i < |states| && (i > 0 ==> |states[i - 1].jobs| <= ref)
    ensures Seen(states, actions, i, ref) == []
  {
    if i > 0 {
      RunAlways(states, actions, i - 1);
      OnlyJobsInHand(states[i - 1], ref);
      if i > 1 {
        JobsGrow(states, actions, i - 2);
      }
      NothingSeen(states, actions, i - 1, ref);
    }
  }

  lemma OnlyJobsInHand(s: State, ref: Ref)
    requires Always(s) && |s.jobs| <= ref
    ensures !(s.callback.HaveOld? && s.callback.ref == ref)
  {
    assert s.callback.HaveOld? ==> Entries(s.callback)[0].1 == s.callback.ref;
  }

  lemma JobsGrow(states: seq<State>, actions: seq<Action>, i: nat)
    requires IsRun(states, actions) && i < |actions|
    ensures |states[i].jobs| <= |states[i + 1].jobs|
  {
    RunStep(states, actions, i);
    PutRemembers(states[i], actions[i]);
  }

  // ---------- what is printed under a JID ----------

  /** The statuses of the SUCCESS CALLBACK messages that print this JID. */
  function Printed(out: seq<Message>, jid: JID): seq<Option<Status>> {
    if out == [] then [] else
      var m := out[|out| - 1];
      Printed(out[..|out| - 1], jid) + if m.CallbackSuccess? && m.jid == jid then [m.status] else []
  }

  lemma PrintedSnoc(out: seq<Message>, m: Message, jid: JID)
    ensures Printed(out + [m], jid) == Printed(out, jid) + if m.CallbackSuccess? && m.jid == jid then [m.status] else []
  {
    assert (out + [m])[..|out|] == out;
  }

  /** The reports about the first `n` jobs that were put under the JID, one job after another. */
  function OneAfterAnother(out: seq<Message>, puts: seq<(JID, Option<Status>)>, jid: JID, n: nat): seq<Option<Status>>
    requires n <= |puts|
  {
    if n == 0 then []
    else OneAfterAnother(out, puts, jid, n - 1) + if puts[n - 1].0 == jid then Reports(out, n - 1) else []
  }

  lemma {:induction false} SameOneAfterAnother(out: seq<Message>, out': seq<Message>, puts: seq<(JID, Option<Status>)>,
                                               puts': seq<(JID, Option<Status>)>, jid: JID, n: nat)
    requires n <= |puts| && n <= |puts'| && puts[..n] == puts'[..n]
    requires forall ref :: 0 <= ref < n && puts[ref].0 == jid ==> Reports(out, ref) == Reports(out', ref)
    ensures OneAfterAnother(out, puts, jid, n) == OneAfterAnother(out', puts', jid, n)
  {
    if n > 0 {
      assert puts[n - 1] == puts[..n][n - 1] == puts'[..n][n - 1] == puts'[n - 1];
      assert puts[..n - 1] == puts[..n][..n - 1] == puts'[..n][..n - 1] == puts'[..n - 1];
      SameOneAfterAnother(out, out', puts, puts', jid, n - 1);
    }
  }

  /** One more report about a job is the last one under its JID, if nothing was reported of the
      later jobs. */
  lemma {:induction false} ReportIsLast(out: seq<Message>, m: Message, puts: seq<(JID, Option<Status>)>, n: nat)
    requires m.CallbackSuccess? && Named(puts, m.jid, m.ref) && m.ref < n <= |puts|
    requires forall q :: m.ref < q < n && puts[q].0 == m.jid ==> Reports(out, q) == []
    ensures OneAfterAnother(out + [m], puts, m.jid, n) == OneAfterAnother(out, puts, m.jid, n) + [m.status]
  {
    ReportsSnoc(out, m, n - 1);
    if n == m.ref + 1 {
      forall ref | 0 <= ref < n - 1
        ensures Reports(out + [m], ref) == Reports(out, ref)
      {
        ReportsSnoc(out, m, ref);
      }
      SameOneAfterAnother(out + [m], out, puts, puts, m.jid, n - 1);
    } else {
      ReportIsLast(out, m, puts, n - 1);
    }
  }

  predicate InEntries(c: Thread, ref: Ref) {
    exists i :: 0 <= i < |Entries(c)| && Entries(c)[i].1 == ref
  }

  /** The first of two jobs is not listed, and while the callback thread still has it to look
      at, it has not the second one and has reported nothing of it. */
  ghost predicate Before(s: State, r: Ref, q: Ref) {
    !IsListed(s.listed, r) && (InEntries(s.callback, r) ==> !InEntries(s.callback, q) && Reports(s.out, q) == [])
  }

  /** Jobs put under one JID follow one another. */
  ghost predicate InTurn(s: State, puts: seq<(JID, Option<Status>)>) {
    forall r, q :: 0 <= r < q < |puts| && puts[r].0 == puts[q].0 ==> Before(s, r, q)
  }

  lemma InEntriesAfter(s: State, a: Action, ref: Ref)
    requires Enabled(s, a) && InEntries(Apply(s, a).callback, ref)
    ensures if a.Snapshot? then IsListed(s.listed, ref) else InEntries(s.callback, ref)
  {
    EntriesAfter(s, a);
    var i :| 0 <= i < |Entries(Apply(s, a).callback)| && Entries(Apply(s, a).callback)[i].1 == ref;
    var e := Entries(Apply(s, a).callback)[i];
    if a.Snapshot? {
      assert e.0 in s.listed && s.listed[e.0] == ref;
    }
  }

  lemma PutInTurn(s: State, jid: JID, job: Job, puts: seq<(JID, Option<Status>)>, base: Option<Status>)
    requires Always(s) && AboutJobs(s) && AllNamed(s, puts) && InTurn(s, puts)
    ensures InTurn(Put(s, jid, job), puts + [(jid, base)])
  {
    var s', puts', n := Put(s, jid, job), puts + [(jid, base)], |puts|;
    forall r, q | 0 <= r < q < |puts'| && puts'[r].0 == puts'[q].0
      ensures Before(s', r, q)
    {
      assert puts'[r] == puts[r];
      if q == n {
        PutAfter(s, jid, job, puts, r);
      } else {
        assert puts'[q] == puts[q] && Before(s, r, q);
        ListedByPut(s, jid, job, r);
      }
    }
  }

  lemma PutAfter(s: State, jid: JID, job: Job, puts: seq<(JID, Option<Status>)>, r: Ref)
    requires AboutJobs(s) && AllNamed(s, puts) && Named(puts, jid, r)
    ensures Before(Put(s, jid, job), r, |puts|)
  {
    NoReports(s.out, |puts|);
    NewIsNotInHand(s, puts);
    NotListedByPut(s, jid, job, puts, r);
  }

  lemma NewIsNotInHand(s: State, puts: seq<(JID, Option<Status>)>)
    requires AllNamed(s, puts)
    ensures !InEntries(s.callback, |puts|)
  {
  }

  lemma ListedByPut(s: State, jid: JID, job: Job, ref: Ref)
    requires ref < |s.jobs| && !IsListed(s.listed, ref)
    ensures !IsListed(Put(s, jid, job).listed, ref)
  {
  }

  /** A put takes the place of the job that was listed under the JID. */
  lemma NotListedByPut(s: State, jid: JID, job: Job, puts: seq<(JID, Option<Status>)>, ref: Ref)
    requires AllNamed(s, puts) && Named(puts, jid, ref)
    ensures !IsListed(Put(s, jid, job).listed, ref)
  {
    forall k | k in s.listed && k != jid
      ensures s.listed[k] != ref
    {
      assert Named(puts, k, s.listed[k]);
    }
  }

  /** Only the job in hand is reported. */
  lemma ReportsAfter(s: State, a: Action, ref: Ref)
    requires Enabled(s, a) && Reports(s.out, ref) == [] && !InEntries(s.callback, ref)
    ensures Reports(Apply(s, a).out, ref) == []
  {
    OneMessage(s, a);
    var out := Apply(s, a).out;
    if out != s.out {
      ReportsSnoc(s.out, out[|s.out|], ref);
      if a.Report? {
        assert Entries(s.callback)[0].1 == s.callback.ref;
      }
    }
  }

  lemma StepInTurn(s: State, a: Action, puts: seq<(JID, Option<Status>)>)
    requires Always(s) && AllNamed(s, puts) && InTurn(s, puts) && Enabled(s, a) && !a.Submit? && !a.Recover?
    ensures InTurn(Apply(s, a), puts)
  {
    forall r, q | 0 <= r < q < |puts| && puts[r].0 == puts[q].0
      ensures Before(Apply(s, a), r, q)
    {
      assert Before(s, r, q);
      StepBefore(s, a, r, q);
    }
  }

  lemma StepBefore(s: State, a: Action, r: Ref, q: Ref)
    requires Before(s, r, q) && r < |s.jobs| && Enabled(s, a) && !a.Submit? && !a.Recover?
    ensures Before(Apply(s, a), r, q)
  {
    var s' := Apply(s, a);
    ListedAfter(s, a, r);
    if InEntries(s'.callback, r) {
      InEntriesAfter(s, a, r);
      ReportsAfter(s, a, q);
      if InEntries(s'.callback, q) {
        InEntriesAfter(s, a, q);
      }
    }
  }

  ghost predicate PrintedInTurn(s: State, puts: seq<(JID, Option<Status>)>, jid: JID) {
    Printed(s.out, jid) == OneAfterAnother(s.out, puts, jid, |puts|)
  }

  lemma PutPrinted(s: State, a: Action, puts: seq<(JID, Option<Status>)>, jid: JID)
    requires AboutJobs(s) && AllNamed(s, puts) && PrintedInTurn(s, puts, jid) && (a.Submit? || a.Recover?)
    ensures PrintedInTurn(Apply(s, a), puts + PutBy(a), jid)
  {
    NoReports(s.out, |puts|);
    SameOneAfterAnother(s.out, s.out, puts, puts + PutBy(a), jid, |puts|);
  }

  lemma StepPrinted(s: State, a: Action, puts: seq<(JID, Option<Status>)>, jid: JID)
    requires AllNamed(s, puts) && InTurn(s, puts) && PrintedInTurn(s, puts, jid)
    requires Enabled(s, a) && !a.Submit? && !a.Recover?
    ensures PrintedInTurn(Apply(s, a), puts, jid)
  {
    OneMessage(s, a);
    var out := Apply(s, a).out;
    if out != s.out {
      var m := out[|s.out|];
      PrintedSnoc(s.out, m, jid);
      if m.CallbackSuccess? && m.jid == jid {
        ReportPrinted(s, puts);
      } else {
        forall ref | 0 <= ref < |puts| && puts[ref].0 == jid
          ensures Reports(out, ref) == Reports(s.out, ref)
        {
          ReportsSnoc(s.out, m, ref);
          if m.CallbackSuccess? {
            StepNamed(s, a, puts, []);
            assert MessageNamed(puts + [], m) && puts + [] == puts;
          }
        }
        SameOneAfterAnother(out, s.out, puts, puts, jid, |puts|);
      }
    }
  }

  lemma ReportPrinted(s: State, puts: seq<(JID, Option<Status>)>)
    requires AllNamed(s, puts) && InTurn(s, puts) && Enabled(s, Report)
    ensures var m := Apply(s, Report).out[|s.out|];
            m.CallbackSuccess? && Apply(s, Report).out == s.out + [m]
            && OneAfterAnother(s.out + [m], puts, m.jid, |puts|) == OneAfterAnother(s.out, puts, m.jid, |puts|) + [m.status]
  {
    var m := Apply(s, Report).out[|s.out|];
    var c := s.callback;
    assert Entries(c)[0] == (c.jid, c.ref);
    assert InEntries(c, c.ref);
    MessageNew(s, Report, puts);
    assert forall q :: c.ref < q < |puts| && puts[q].0 == c.jid ==> Before(s, c.ref, q);
    ReportIsLast(s.out, m, puts, |puts|);
  }

  /** What is known of every state of a run. */
  ghost predicate Sound(s: State, puts: seq<(JID, Option<Status>)>) {
    Always(s) && AboutJobs(s) && AllNamed(s, puts)
  }

  lemma RunSound(states: seq<State>, actions: seq<Action>, i: nat)
    requires IsRun(states, actions) && i < |states|
    ensures Sound(states[i], Puts(actions[..i]))
  {
    JobsKeepTheirNames(states, actions, i);
    RunSaid(states, actions, i);
  }

  lemma NextInTurn(s: State, a: Action, puts: seq<(JID, Option<Status>)>)
    requires Sound(s, puts) && InTurn(s, puts) && Enabled(s, a)
    ensures InTurn(Apply(s, a), puts + PutBy(a))
  {
    match a
    case Submit(k) => PutInTurn(s, k, Job(None, None, [], []), puts, None);
    case Recover(k, st) => PutInTurn(s, k, Job(Some(st), Some(st), [], []), puts, Some(st));
    case _ =>
      assert puts + [] == puts;
      StepInTurn(s, a, puts);
  }

  lemma NextPrinted(s: State, a: Action, puts: seq<(JID, Option<Status>)>, jid: JID)
    requires Sound(s, puts) && InTurn(s, puts) && PrintedInTurn(s, puts, jid) && Enabled(s, a)
    ensures PrintedInTurn(Apply(s, a), puts + PutBy(a), jid)
  {
    if a.Submit? || a.Recover? {
      PutPrinted(s, a, puts, jid);
    } else {
      assert puts + [] == puts;
      StepPrinted(s, a, puts, jid);
    }
  }

  lemma InTurnAfter(states: seq<State>, actions: seq<Action>, i: nat)
    requires IsRun(states, actions) && i < |actions| && InTurn(states[i], Puts(actions[..i]))
    ensures InTurn(states[i + 1], Puts(actions[..i + 1]))
  {
    RunSound(states, actions, i);
    RunStep(states, actions, i);
    PutsStep(actions, i);
    NextInTurn(states[i], actions[i], Puts(actions[..i]));
  }

  lemma {:induction false} RunInTurn(states: seq<State>, actions: seq<Action>, i: nat)
    requires IsRun(states, actions) && i < |states|
    ensures InTurn(states[i], Puts(actions[..i]))
  {
    if i > 0 {
      RunInTurn(states, actions, i - 1);
      InTurnAfter(states, actions, i - 1);
    }
  }

  lemma PrintedAfter(states: seq<State>, actions: seq<Action>, i: nat, jid: JID)
    requires IsRun(states, actions) && i < |actions| && PrintedInTurn(states[i], Puts(actions[..i]), jid)
    ensures PrintedInTurn(states[i + 1], Puts(actions[..i + 1]), jid)
  {
    RunInTurn(states, actions, i);
    RunSound(states, actions, i);
    RunStep(states, actions, i);
    PutsStep(actions, i);
    NextPrinted(states[i], actions[i], Puts(actions[..i]), jid);
  }

  lemma {:induction false} RunPrinted(states: seq<State>, actions: seq<Action>, i: nat, jid: JID)
    requires IsRun(states, actions) && i < |states|
    ensures PrintedInTurn(states[i], Puts(actions[..i]), jid)
  {
    if i > 0 {
      RunPrinted(states, actions, i - 1, jid);
      PrintedAfter(states, actions, i - 1, jid);
    }
  }

  /** The statuses due for the first `n` of these jobs that were put under the JID, one job
      after another. */
  function DueUnder(states: seq<State>, actions: seq<Action>, i: nat, puts: seq<(JID, Option<Status>)>, jid: JID, n: nat)
    : seq<Option<Status>>
    requires i <= |actions| < |states| && n <= |puts|
  {
    if n == 0 then []
    else
      DueUnder(states, actions, i, puts, jid, n - 1) +
      if puts[n - 1].0 == jid then Expected(puts[n - 1].1, Seen(states, actions, i, n - 1)) else []
  }

  /** The callback thread has no job in hand that goes by this JID. */
  predicate NotInHand(c: Thread, jid: JID) {
    c.HaveOld? || c.Refreshed? || c.Deleting? || c.Reporting? ==> c.jid != jid
  }

  lemma OthersNotBusy(s: State, puts: seq<(JID, Option<Status>)>, jid: JID, ref: Ref)
    requires AllNamed(s, puts) && Named(puts, jid, ref) && NotInHand(s.callback, jid)
    ensures !Busy(s.callback, ref)
  {
    var c := s.callback;
    if c.HaveOld? || c.Refreshed? || c.Deleting? || c.Reporting? {
      assert Entries(c)[0] == (c.jid, c.ref);
    }
  }

  lemma ReportsAreDueOf(states: seq<State>, actions: seq<Action>, i: nat, jid: JID, ref: Ref)
    requires IsRun(states, actions) && i < |states| && NotInHand(states[i].callback, jid)
    requires Named(Puts(actions[..i]), jid, ref)
    ensures Reports(states[i].out, ref) == Expected(Puts(actions[..i])[ref].1, Seen(states, actions, i, ref))
  {
    JobsKeepTheirNames(states, actions, i);
    JobsRemember(states, actions, i);
    OthersNotBusy(states[i], Puts(actions[..i]), jid, ref);
    ReportsAreExpected(states, actions, i, ref);
  }

  lemma {:induction false} ReportsAreDue(states: seq<State>, actions: seq<Action>, i: nat,
                                         puts: seq<(JID, Option<Status>)>, jid: JID, n: nat)
    requires IsRun(states, actions) && i < |states| && NotInHand(states[i].callback, jid)
    requires puts == Puts(actions[..i]) && n <= |puts|
    ensures OneAfterAnother(states[i].out, puts, jid, n) == DueUnder(states, actions, i, puts, jid, n)
  {
    if n > 0 {
      ReportsAreDue(states, actions, i, puts, jid, n - 1);
      if puts[n - 1].0 == jid {
        ReportsAreDueOf(states, actions, i, jid, n - 1);
      }
    }
  }

  /** In every run, polite or not, and for every JID whose job the callback thread has not in
      hand: the statuses printed under that JID are the ones due for the jobs that were put
      under it, those of one job after those of the one before. */
  lemma PrintedAreDue(states: seq<State>, actions: seq<Action>, i: nat, jid: JID)
    requires IsRun(states, actions) && i < |states| && NotInHand(states[i].callback, jid)
    ensures var puts := Puts(actions[..i]);
            Printed(states[i].out, jid) == DueUnder(states, actions, i, puts, jid, |puts|)
  {
    RunPrinted(states, actions, i, jid);
    ReportsAreDue(states, actions, i, Puts(actions[..i]), jid, |Puts(actions[..i])|);
  }

  /** In a polite run a job that is not in the callback thread's hand is listed, under the JID it
      was put with, until it was last seen "DONE" or "FAILED"; once that was seen, nothing more
      is seen of it. */
  lemma ListedUntilTheEnd(states: seq<State>, actions: seq<Action>, i: nat, jid: JID, ref: Ref)
    requires IsRun(states, actions) && IsPolite(states, actions) && i < |states|
    requires Named(Puts(actions[..i]), jid, ref) && NotInHand(states[i].callback, jid)
    ensures var seen, listed := Seen(states, actions, i, ref), states[i].listed;
            && (forall k :: 0 <= k < |seen| - 1 ==> seen[k] != "DONE" && seen[k] != "FAILED")
            && ((jid in listed && listed[jid] == ref) <==>
                  seen == [] || (seen[|seen| - 1] != "DONE" && seen[|seen| - 1] != "FAILED"))
  {
    JobsKeepTheirNames(states, actions, i);
    JobsRemember(states, actions, i);
    OthersNotBusy(states[i], Puts(actions[..i]), jid, ref);
    CallbacksAreExpected(states, actions, i, ref);
    ListedUnderItsName(states[i], Puts(actions[..i]), jid, ref);
  }

  lemma ListedUnderItsName(s: State, puts: seq<(JID, Option<Status>)>, jid: JID, ref: Ref)
    requires AllNamed(s, puts) && Named(puts, jid, ref)
    ensures IsListed(s.listed, ref) <==> jid in s.listed && s.listed[jid] == ref
  {
    if IsListed(s.listed, ref) {
      var k :| k in s.listed && s.listed[k] == ref;
      assert Named(puts, k, ref);
    }
  }

  // ---------- one scan ----------

  /** The entries whose status is still to be asked for in this scan. */
  function Unasked(c: Thread): seq<(JID, Ref)> {
    match c
    case Sleeping => []
    case HaveOld(jid, ref, _, todo) => [(jid, ref)] + todo
    case _ => c.todo
  }

  /** How often the steps from `i` up to `k` ask for the status of this entry's job. */
  function Asked(states: seq<State>, actions: seq<Action>, i: nat, k: nat, e: (JID, Ref)): nat
    requires i <= k <= |actions| < |states|
  {
    if k == i then 0 else Asked(states, actions, i, k - 1, e) + One(AsksFor(states[k - 1], actions[k - 1], e))
  }

  /** How often an entry stands in a list. */
  function Times(es: seq<(JID, Ref)>, e: (JID, Ref)): nat {
    if es == [] then 0 else One(es[0] == e) + Times(es[1..], e)
  }

  lemma AskedFirst(s: State, a: Action, e: (JID, Ref))
    requires Enabled(s, a) && (a.Refresh? || a.RefreshRaises?)
    ensures Times(Unasked(s.callback), e) == Times(Unasked(Apply(s, a).callback), e) + One(AsksFor(s, a, e))
  {
    var c := s.callback;
    assert ([(c.jid, c.ref)] + c.todo)[1..] == c.todo;
  }

  lemma UnaskedSame(s: State, a: Action)
    requires Enabled(s, a) && !a.Snapshot? && !a.Sleep? && !a.Refresh? && !a.RefreshRaises?
    ensures Unasked(s.callback) == Unasked(Apply(s, a).callback)
  {
    if a.ReadOld? {
      var todo := s.callback.todo;
      assert [todo[0]] + todo[1..] == todo && (todo[0].0, todo[0].1) == todo[0];
    }
  }

  lemma UnaskedAfter(s: State, a: Action, e: (JID, Ref))
    requires Enabled(s, a) && !a.Snapshot? && !a.Sleep?
    ensures Times(Unasked(s.callback), e) == Times(Unasked(Apply(s, a).callback), e) + One(AsksFor(s, a, e))
  {
    if a.Refresh? || a.RefreshRaises? {
      AskedFirst(s, a, e);
    } else {
      UnaskedSame(s, a);
    }
  }

  /** Step `i` takes a copy of the list and the callback thread does not sleep before step `k`. */
  ghost predicate IsScan(states: seq<State>, actions: seq<Action>, i: nat, k: nat) {
    && IsRun(states, actions) && i < k <= |actions| && actions[i].Snapshot?
    && forall m :: i < m < k ==> actions[m] != Sleep
  }

  /** Entries asked for since step `i` and those still to be asked for make up its copy. */
  ghost predicate Scanned(states: seq<State>, actions: seq<Action>, i: nat, k: nat, e: (JID, Ref)) {
    && i < k <= |actions| < |states| && actions[i].Snapshot?
    && !states[k].callback.Sleeping?
    && Asked(states, actions, i, k, e) + Times(Unasked(states[k].callback), e) == Times(actions[i].items, e)
  }

  lemma ScanBegins(states: seq<State>, actions: seq<Action>, i: nat, e: (JID, Ref))
    requires IsScan(states, actions, i, i + 1)
    ensures Scanned(states, actions, i, i + 1, e)
  {
    RunStep(states, actions, i);
    assert Asked(states, actions, i, i, e) == 0;
  }

  lemma ScanGoesOn(states: seq<State>, actions: seq<Action>, i: nat, k: nat, e: (JID, Ref))
    requires i < k && IsScan(states, actions, i, k + 1) && Scanned(states, actions, i, k, e)
    ensures Scanned(states, actions, i, k + 1, e)
  {
    RunStep(states, actions, k);
    UnaskedAfter(states[k], actions[k], e);
  }

  lemma ScanBefore(states: seq<State>, actions: seq<Action>, i: nat, k: nat)
    requires i < k && IsScan(states, actions, i, k + 1)
    ensures IsScan(states, actions, i, k)
  {
  }

  lemma {:induction false} ScanAsks(states: seq<State>, actions: seq<Action>, i: nat, k: nat, e: (JID, Ref))
    requires i < k && IsScan(states, actions, i, k)
    ensures Scanned(states, actions, i, k, e)
    decreases k
  {
    if k == i + 1 {
      ScanBegins(states, actions, i, e);
    } else {
      ScanBefore(states, actions, i, k - 1);
      ScanAsks(states, actions, i, k - 1, e);
      ScanGoesOn(states, actions, i, k - 1, e);
    }
  }

  lemma {:induction false} OnceAmong(items: seq<(JID, Ref)>, e: (JID, Ref))
    requires forall i, j :: 0 <= i < j < |items| ==> items[i].0 != items[j].0
    ensures Times(items, e) == One(e in items)
  {
    if items != [] {
      var rest := items[1..];
      OnceAmong(rest, e);
      assert forall j :: 0 <= j < |rest| ==> rest[j] == items[j + 1] != items[0];
    }
  }

  /** From taking its copy of the list to going to sleep, whatever happens in between, the
      callback thread asks for the status of each job that was listed, under its JID, exactly
      once, and of no other. */
  lemma EveryScanAsksOnce(states: seq<State>, actions: seq<Action>, i: nat, k: nat, e: (JID, Ref))
    requires IsScan(states, actions, i, k) && k < |actions| && actions[k] == Sleep
    ensures Asked(states, actions, i, k, e) == One(e.0 in states[i].listed && states[i].listed[e.0] == e.1)
  {
    ScanAsks(states, actions, i, k, e);
    RunStep(states, actions, i);
    RunStep(states, actions, k);
    var items, listed := actions[i].items, states[i].listed;
    OnceAmong(items, e);
    if e.0 in listed && listed[e.0] == e.1 {
      assert (e.0, listed[e.0]) in items && (e.0, e.1) == e;
    }
  }

  /** How often the first `n` steps failed to learn the status of a job that goes by this JID. */
  function Raised(states: seq<State>, actions: seq<Action>, n: nat, jid: JID): nat
    requires n <= |actions| < |states|
  {
    if n == 0 then 0
    else
      Raised(states, actions, n - 1, jid) +
      One(actions[n - 1].RefreshRaises? && states[n - 1].callback.HaveOld? && states[n - 1].callback.jid == jid)
  }

  /** The FAILURE CALLBACK messages that print this JID. */
  function Failures(out: seq<Message>, jid: JID): nat {
    if out == [] then 0 else Failures(out[..|out| - 1], jid) + One(out[|out| - 1] == CallbackFailure(jid))
  }

  lemma FailuresSnoc(out: seq<Message>, m: Message, jid: JID)
    ensures Failures(out + [m], jid) == Failures(out, jid) + One(m == CallbackFailure(jid))
  {
    assert (out + [m])[..|out|] == out;
  }

  lemma StepRaises(s: State, a: Action, jid: JID)
    requires Enabled(s, a)
    ensures Failures(Apply(s, a).out, jid) == Failures(s.out, jid) + One(a.RefreshRaises? && s.callback.jid == jid)
  {
    OneMessage(s, a);
    var out := Apply(s, a).out;
    if out != s.out {
      FailuresSnoc(s.out, out[|s.out|], jid);
    }
  }

  /** A FAILURE CALLBACK is printed under a JID once each time that happens. */
  lemma {:induction false} FailuresAreRaised(states: seq<State>, actions: seq<Action>, i: nat, jid: JID)
    requires IsRun(states, actions) && i < |states|
    ensures Failures(states[i].out, jid) == Raised(states, actions, i, jid)
  {
    if i > 0 {
      FailuresAreRaised(states, actions, i - 1, jid);
      RunStep(states, actions, i - 1);
      StepRaises(states[i - 1], actions[i - 1], jid);
    }
  }

  // ---------- questions and answers ----------

  /** The step is a part of answering a POLL or a CANCEL on this thread. */
  predicate OnThread(a: Action, t: nat) {
    (a.PollAsk? || a.PollGet? || a.PollRead? || a.CancelAsk? || a.CancelGet?) && a.thread == t
  }

  predicate NoTurn(actions: seq<Action>, i: nat, k: nat, t: nat)
    requires k <= |actions|
  {
    forall m :: i < m < k ==> !OnThread(actions[m], t)
  }

  /** The thread was asked about this JID by step `i`, found it listed, and did nothing since. */
  predicate AskedAt(states: seq<State>, actions: seq<Action>, i: nat, k: nat, t: nat, ask: Action)
    requires k <= |actions| < |states|
  {
    i < k && actions[i] == ask && (ask.PollAsk? || ask.CancelAsk?) && ask.thread == t
    && ask.jid in states[i].listed && NoTurn(actions, i, k, t)
  }

  /** It was asked by step `i`, found the job `ref` under the JID by step `j`, and did nothing
      in between or since. */
  predicate FoundAt(states: seq<State>, actions: seq<Action>, i: nat, j: nat, k: nat, t: nat, jid: JID, ref: Ref)
    requires k <= |actions| < |states|
  {
    j < k && AskedAt(states, actions, i, j, t, PollAsk(t, jid))
    && actions[j] == PollGet(t) && jid in states[j].listed && states[j].listed[jid] == ref && NoTurn(actions, j, k, t)
  }

  /** Every request being answered was made. */
  ghost predicate Made(states: seq<State>, actions: seq<Action>, k: nat, t: nat, p: Poll)
    requires k <= |actions| < |states|
  {
    match p
    case Asked(jid) => exists i :: AskedAt(states, actions, i, k, t, PollAsk(t, jid))
    case Holding(jid, ref) => exists i, j :: FoundAt(states, actions, i, j, k, t, jid, ref)
    case Cancelling(jid) => exists i :: AskedAt(states, actions, i, k, t, CancelAsk(t, jid))
  }

  lemma MadeStays(states: seq<State>, actions: seq<Action>, k: nat, t: nat, p: Poll)
    requires k < |actions| < |states| && Made(states, actions, k, t, p) && !OnThread(actions[k], t)
    ensures Made(states, actions, k + 1, t, p)
  {
    match p
    case Asked(jid) =>
      var i :| AskedAt(states, actions, i, k, t, PollAsk(t, jid));
      assert AskedAt(states, actions, i, k + 1, t, PollAsk(t, jid));
    case Holding(jid, ref) =>
      var i, j :| FoundAt(states, actions, i, j, k, t, jid, ref);
      assert FoundAt(states, actions, i, j, k + 1, t, jid, ref);
    case Cancelling(jid) =>
      var i :| AskedAt(states, actions, i, k, t, CancelAsk(t, jid));
      assert AskedAt(states, actions, i, k + 1, t, CancelAsk(t, jid));
  }

  lemma OtherPolls(s: State, a: Action, t: nat)
    requires Enabled(s, a) && !OnThread(a, t)
    ensures t in Apply(s, a).polls <==> t in s.polls
    ensures t in s.polls ==> Apply(s, a).polls[t] == s.polls[t]
  {
  }

  lemma {:induction false} EachWasMade(states: seq<State>, actions: seq<Action>, k: nat, t: nat)
    requires IsRun(states, actions) && k < |states| && t in states[k].polls
    ensures Made(states, actions, k, t, states[k].polls[t])
    decreases k, 0
  {
    if k > 0 {
      var s, a := states[k - 1], actions[k - 1];
      RunStep(states, actions, k - 1);
      if OnThread(a, t) {
        TurnMakes(states, actions, k - 1, t);
      } else {
        OtherPolls(s, a, t);
        EachWasMade(states, actions, k - 1, t);
        MadeStays(states, actions, k - 1, t, s.polls[t]);
      }
    }
  }

  lemma TurnMakes(states: seq<State>, actions: seq<Action>, k: nat, t: nat)
    requires IsRun(states, actions) && k < |actions| && OnThread(actions[k], t) && t in states[k + 1].polls
    ensures Made(states, actions, k + 1, t, states[k + 1].polls[t])
    decreases k, 1
  {
    var s, a := states[k], actions[k];
    RunStep(states, actions, k);
    match a
    case PollAsk(_, jid) => assert AskedAt(states, actions, k, k + 1, t, a);
    case CancelAsk(_, jid) => assert AskedAt(states, actions, k, k + 1, t, a);
    case PollGet(_) =>
      EachWasMade(states, actions, k, t);
      var jid := s.polls[t].jid;
      var i :| AskedAt(states, actions, i, k, t, PollAsk(t, jid));
      assert FoundAt(states, actions, i, k, k + 1, t, jid, s.listed[jid]);
    case _ =>
  }

  /** A POLL of a JID that is not listed is answered with a failure at once, one of a listed JID
      not yet at all. */
  lemma PollAsked(states: seq<State>, actions: seq<Action>, k: nat, t: nat, jid: JID)
    requires IsRun(states, actions) && k < |actions| && actions[k] == PollAsk(t, jid)
    ensures states[k + 1].out == states[k].out + if jid in states[k].listed then [] else [PollFailure(jid)]
    ensures t in states[k + 1].polls <==> jid in states[k].listed
  {
    RunStep(states, actions, k);
    assert states[k].out + [] == states[k].out;
  }

  /** One that found its JID listed is refused exactly if the JID is not listed any more when
      the job is fetched. */
  lemma PollFetched(states: seq<State>, actions: seq<Action>, k: nat, t: nat) returns (i: nat, jid: JID)
    requires IsRun(states, actions) && k < |actions| && actions[k] == PollGet(t)
    ensures AskedAt(states, actions, i, k, t, PollAsk(t, jid))
    ensures states[k + 1].out == states[k].out + if jid in states[k].listed then [] else [PollFailure(jid)]
  {
    RunStep(states, actions, k);
    EachWasMade(states, actions, k, t);
    jid := states[k].polls[t].jid;
    i :| AskedAt(states, actions, i, k, t, PollAsk(t, jid));
    assert states[k].out + [] == states[k].out;
  }

  /** Any other answer names the JID that was asked for and gives the last status known of the
      job that was listed under it when the job was fetched. */
  lemma PollAnswered(states: seq<State>, actions: seq<Action>, k: nat, t: nat) returns (i: nat, j: nat, jid: JID, ref: Ref)
    requires IsRun(states, actions) && k < |actions| && actions[k] == PollRead(t)
    ensures FoundAt(states, actions, i, j, k, t, jid, ref) && Named(Puts(actions[..k]), jid, ref)
    ensures states[k + 1].out
         == states[k].out + [PollSuccess(jid, ref, Latest(Puts(actions[..k])[ref].1, Seen(states, actions, k, ref)))]
  {
    RunStep(states, actions, k);
    EachWasMade(states, actions, k, t);
    var p := states[k].polls[t];
    jid, ref := p.jid, p.ref;
    i, j :| FoundAt(states, actions, i, j, k, t, jid, ref);
    JobsKeepTheirNames(states, actions, k);
    JobsRemember(states, actions, k);
    RunSaid(states, actions, k);
    assert Said(states[k], ref);
  }

  lemma CancelAsked(states: seq<State>, actions: seq<Action>, k: nat, t: nat, jid: JID)
    requires IsRun(states, actions) && k < |actions| && actions[k] == CancelAsk(t, jid)
    ensures states[k + 1].out == states[k].out + if jid in states[k].listed then [] else [CancelFailure(jid)]
    ensures t in states[k + 1].polls <==> jid in states[k].listed
  {
    RunStep(states, actions, k);
    assert states[k].out + [] == states[k].out;
  }

  /** A CANCEL of a listed JID is answered under that JID, and succeeds exactly if the JID is
      still listed when the job is fetched, and the job listed then can be cancelled. */
  lemma CancelAnswered(states: seq<State>, actions: seq<Action>, k: nat, t: nat, works: bool) returns (i: nat, jid: JID)
    requires IsRun(states, actions) && k < |actions| && actions[k] == CancelGet(t, works)
    ensures AskedAt(states, actions, i, k, t, CancelAsk(t, jid))
    ensures states[k + 1].out == states[k].out +
              if jid in states[k].listed && works then [CancelSuccess(jid, states[k].listed[jid])] else [CancelFailure(jid)]
  {
    RunStep(states, actions, k);
    EachWasMade(states, actions, k, t);
    jid := states[k].polls[t].jid;
    i :| AskedAt(states, actions, i, k, t, CancelAsk(t, jid));
  }

  /** How many requests were made. */
  function Requests(actions: seq<Action>): nat {
    if actions == [] then 0 else
      var a := actions[|actions| - 1];
      Requests(actions[..|actions| - 1]) + One(a.PollAsk? || a.CancelAsk?)
  }

  /** How many were answered. */
  function Answers(out: seq<Message>): nat {
    if out == [] then 0 else
      var m := out[|out| - 1];
      Answers(out[..|out| - 1]) + One(!m.CallbackSuccess? && !m.CallbackFailure?)
  }

  lemma AnswersSnoc(out: seq<Message>, m: Message)
    ensures Answers(out + [m]) == Answers(out) + One(!m.CallbackSuccess? && !m.CallbackFailure?)
  {
    assert (out + [m])[..|out|] == out;
  }

  lemma StepAnswers(s: State, a: Action)
    requires Enabled(s, a)
    ensures Answers(Apply(s, a).out) + |Apply(s, a).polls| == Answers(s.out) + |s.polls| + One(a.PollAsk? || a.CancelAsk?)
  {
    var s' := Apply(s, a);
    OneMessage(s, a);
    if s'.out != s.out {
      AnswersSnoc(s.out, s'.out[|s.out|]);
    }
    PollsAfter(s, a);
  }

  lemma PollsAfter(s: State, a: Action)
    requires Enabled(s, a)
    ensures var s' := Apply(s, a);
            |s'.polls| + One(s'.out != s.out && !a.RefreshRaises? && !a.Report?) == |s.polls| + One(a.PollAsk? || a.CancelAsk?)
  {
    if a.PollAsk? || a.CancelAsk? {
      PollsAsked(s, a);
    } else if a.PollGet? || a.PollRead? || a.CancelGet? {
      PollsAnswered(s, a);
    }
  }

  lemma PollsAsked(s: State, a: Action)
    requires Enabled(s, a) && (a.PollAsk? || a.CancelAsk?)
    ensures var s' := Apply(s, a);
            |s'.polls| + One(s'.out != s.out) == |s.polls| + 1
  {
    Entered(s.polls, a.thread, if a.PollAsk? then Poll.Asked(a.jid) else Cancelling(a.jid));
  }

  lemma PollsAnswered(s: State, a: Action)
    requires Enabled(s, a) && (a.PollGet? || a.PollRead? || a.CancelGet?)
    ensures var s' := Apply(s, a);
            |s'.polls| + One(s'.out != s.out) == |s.polls|
  {
    Left(s.polls, a.thread);
    Updated(s.polls, a.thread, Apply(s, a).polls);
  }

  lemma Entered(polls: map<nat, Poll>, t: nat, p: Poll)
    requires t !in polls
    ensures |polls[t := p]| == |polls| + 1
  {
    assert polls[t := p] - {t} == polls;
    assert polls[t := p].Keys == polls.Keys + {t};
  }

  lemma Left(polls: map<nat, Poll>, t: nat)
    requires t in polls
    ensures |polls - {t}| == |polls| - 1
  {
    assert (polls - {t}).Keys == polls.Keys - {t};
  }

  lemma Updated(polls: map<nat, Poll>, t: nat, polls': map<nat, Poll>)
    requires t in polls
    ensures polls'.Keys == polls.Keys ==> |polls'| == |polls|
  {
    assert |polls'| == |polls'.Keys| && |polls| == |polls.Keys|;
  }

  /** Every request is answered once: those made are those answered and those being answered. */
  lemma {:induction false} EachIsAnsweredOnce(states: seq<State>, actions: seq<Action>, i: nat)
    requires IsRun(states, actions) && i < |states|
    ensures Requests(actions[..i]) == Answers(states[i].out) + |states[i].polls|
  {
    if i > 0 {
      EachIsAnsweredOnce(states, actions, i - 1);
      RunStep(states, actions, i - 1);
      StepAnswers(states[i - 1], actions[i - 1]);
      var most := actions[..i];
      assert most[..|most| - 1] == actions[..i - 1] && most[|most| - 1] == actions[i - 1];
    } else {
      assert actions[..0] == [];
    }
  }
}
