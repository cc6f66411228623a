/** The elastic thread pool (drm4g/utils/dynamic.py:38-104): shared counters, a queue, and
workers that take tasks, retire when idle, or are lost when a task raises.

A step is what happens between two points where another thread can be seen: `add_task` counts
and starts a worker and only then queues the task, holding the lock throughout, and a worker
needs the lock to leave. A run is any interleaving of steps.

`get` is called with the timeout in the place of `block` (line 57), so as written it waits for
ever and never raises Empty. `SeesEmpty` may but need not happen, so laws about all runs hold
both as written and as meant; where the two differ the law says so.
 */
module ThreadPool {
  import opened Basics

  type Task = nat  // tasks are numbered in the order in which they are added

  datatype Worker = Idle | SawEmpty | Running(task: Task) | Retired | Lost

  datatype Pool = Pool(min: nat, max: nat, active: int, workers: seq<Worker>, adding: bool,
                       queue: seq<Task>, finished: set<Task>, added: nat)

  datatype Action =
    | Grow                           // add_task takes the lock and may start a worker
    | Put                            // add_task queues the task and gives the lock back
    | Take(w: nat)                   // get returns a task
    | SeesEmpty(w: nat)              // get raises Empty
    | Leave(w: nat)                  // lines 59-65
    | Finish(w: nat, raises: bool)   // the task returns or raises

  function Start(min: nat, max: nat): Pool {
    Pool(min, max, min, seq(min, _ => Idle), false, [], {}, 0)
  }

  predicate Enabled(s: Pool, a: Action) {
    match a
    case Grow => !s.adding
    case Put => s.adding
    case Take(w) => w < |s.workers| && s.workers[w].Idle? && s.queue != []
    case SeesEmpty(w) => w < |s.workers| && s.workers[w].Idle? && s.queue == []
    case Leave(w) => !s.adding && w < |s.workers| && s.workers[w].SawEmpty?
    case Finish(w, _) => w < |s.workers| && s.workers[w].Running?
  }

  function Apply(s: Pool, a: Action): Pool
    requires Enabled(s, a)
  {
    match a
    case Grow =>
      if s.active < s.max then s.(adding := true, workers := s.workers + [Idle], active := s.active + 1)
      else s.(adding := true)
    case Put => s.(adding := false, queue := s.queue + [s.added], added := s.added + 1)
    case Take(w) => s.(workers := s.workers[w := Running(s.queue[0])], queue := s.queue[1..])
    case SeesEmpty(w) => s.(workers := s.workers[w := SawEmpty])
    case Leave(w) =>
      if s.active > s.min then s.(workers := s.workers[w := Retired], active := s.active - 1)
      else s.(workers := s.workers[w := Idle])
    case Finish(w, raises) =>
      s.(workers := s.workers[w := if raises then Lost else Idle], finished := s.finished + {s.workers[w].task})
  }

  ghost predicate IsRun(states: seq<Pool>, actions: seq<Action>) {
    && |states| == |actions| + 1
    && states[0] == Start(states[0].min, states[0].max)
    && forall i :: 0 <= i < |actions| ==> Enabled(states[i], actions[i]) && states[i + 1] == Apply(states[i], actions[i])
  }

  predicate Raises(a: Action) {
    a.Finish? && a.raises
  }

  // ---------- counting ----------

  predicate IsLive(w: Worker) {
    w.Idle? || w.SawEmpty? || w.Running?
  }

  function Live(ws: seq<Worker>): nat {
    if ws == [] then 0 else (if IsLive(ws[0]) then 1 else 0) + Live(ws[1..])
  }

  function LostCount(ws: seq<Worker>): nat {
    if ws == [] then 0 else (if ws[0].Lost? then 1 else 0) + LostCount(ws[1..])
  }

  function RunningCount(ws: seq<Worker>): nat {
    if ws == [] then 0 else (if ws[0].Running? then 1 else 0) + RunningCount(ws[1..])
  }

  function EmptyCount(ws: seq<Worker>): nat {
    if ws == [] then 0 else (if ws[0].SawEmpty? then 1 else 0) + EmptyCount(ws[1..])
  }

  lemma {:induction false} CountsUpdate(ws: seq<Worker>, i: nat, w: Worker)
    requires i < |ws|
    ensures Live(ws[i := w]) == Live(ws) - One(IsLive(ws[i])) + One(IsLive(w))
    ensures LostCount(ws[i := w]) == LostCount(ws) - One(ws[i].Lost?) + One(w.Lost?)
    ensures RunningCount(ws[i := w]) == RunningCount(ws) - One(ws[i].Running?) + One(w.Running?)
    ensures EmptyCount(ws[i := w]) == EmptyCount(ws) - One(ws[i].SawEmpty?) + One(w.SawEmpty?)
  {
    if i == 0 {
      assert ws[0 := w][1..] == ws[1..];
    } else {
      assert ws[i := w][1..] == ws[1..][i - 1 := w];
      CountsUpdate(ws[1..], i - 1, w);
    }
  }

  lemma {:induction false} CountsSnoc(ws: seq<Worker>)
    ensures Live(ws + [Idle]) == Live(ws) + 1 && LostCount(ws + [Idle]) == LostCount(ws)
  {
    if ws == [] {
      assert [Idle][1..] == [];
    } else {
      assert (ws + [Idle])[1..] == ws[1..] + [Idle];
      CountsSnoc(ws[1..]);
    }
  }

  lemma {:induction false} CountsIdle(n: nat)
    ensures Live(seq(n, _ => Idle)) == n && LostCount(seq(n, _ => Idle)) == 0
  {
    if n > 0 {
      assert seq(n, _ => Idle)[1..] == seq(n - 1, _ => Idle);
      CountsIdle(n - 1);
    }
  }

  lemma {:induction false} CountsBound(ws: seq<Worker>)
    ensures Live(ws) <= |ws| && EmptyCount(ws) <= |ws|
    ensures Live(ws) > 0 ==> exists i :: 0 <= i < |ws| && IsLive(ws[i])
  {
    if ws != [] {
      CountsBound(ws[1..]);
      if !IsLive(ws[0]) && Live(ws) > 0 {
        var i :| 0 <= i < |ws[1..]| && IsLive(ws[1..][i]);
        assert IsLive(ws[i + 1]);
      }
    }
  }

  // ---------- safety ----------

  /** Where task `t` is. */
  predicate Queued(s: Pool, t: Task) { t in s.queue }

  predicate RunningAt(s: Pool, t: Task, w: nat) { w < |s.workers| && s.workers[w] == Running(t) }

  predicate IsRunning(s: Pool, t: Task) { exists w :: 0 <= w < |s.workers| && s.workers[w] == Running(t) }

  /** The queue is what has been added and not taken, oldest first; a task that has been
      taken is running, in one worker only, or finished. */
  ghost predicate TasksInv(s: Pool) {
    && |s.queue| <= s.added
    && (forall i :: 0 <= i < |s.queue| ==> s.queue[i] == s.added - |s.queue| + i)
    && (forall t :: 0 <= t < s.added - |s.queue| ==> IsRunning(s, t) != (t in s.finished))
    && (forall t :: t in s.finished ==> t < s.added - |s.queue|)
    && (forall w :: 0 <= w < |s.workers| && s.workers[w].Running? ==> s.workers[w].task < s.added - |s.queue|)
    && (forall v, w :: 0 <= v < |s.workers| && 0 <= w < |s.workers| && s.workers[v].Running? && s.workers[v] == s.workers[w] ==> v == w)
  }

  ghost predicate Inv(s: Pool) {
    && s.min <= s.active <= Max(s.min, s.max)
    && Live(s.workers) + LostCount(s.workers) == s.active
    && TasksInv(s)
  }

  lemma StartInv(min: nat, max: nat)
    ensures Inv(Start(min, max))
  {
    CountsIdle(min);
  }

  lemma CountersKept(s: Pool, a: Action)
    requires Inv(s) && Enabled(s, a)
    ensures var s' := Apply(s, a);
            s'.min <= s'.active <= Max(s'.min, s'.max) && Live(s'.workers) + LostCount(s'.workers) == s'.active
  {
    match a
    case Grow => CountsSnoc(s.workers);
    case Put =>
    case Take(w) => CountsUpdate(s.workers, w, Running(s.queue[0]));
    case SeesEmpty(w) => CountsUpdate(s.workers, w, SawEmpty);
    case Leave(w) => CountsUpdate(s.workers, w, if s.active > s.min then Retired else Idle);
    case Finish(w, raises) => CountsUpdate(s.workers, w, if raises then Lost else Idle);
  }

  /** No worker's task changes except worker `w`'s. */
  lemma SameRunning(s: Pool, s': Pool, w: nat, t: Task)
    requires w < |s.workers| && |s'.workers| == |s.workers|
    requires forall v :: 0 <= v < |s.workers| && v != w ==> s'.workers[v] == s.workers[v]
    requires s.workers[w] != Running(t) && s'.workers[w] != Running(t)
    ensures IsRunning(s', t) == IsRunning(s, t)
  {
    if IsRunning(s, t) {
      var v :| 0 <= v < |s.workers| && s.workers[v] == Running(t);
      assert s'.workers[v] == Running(t);
    }
    if IsRunning(s', t) {
      var v :| 0 <= v < |s'.workers| && s'.workers[v] == Running(t);
      assert s.workers[v] == Running(t);
    }
  }

  lemma TakeKeepsTasks(s: Pool, w: nat)
    requires TasksInv(s) && Enabled(s, Take(w))
    ensures TasksInv(Apply(s, Take(w)))
  {
    var s', first := Apply(s, Take(w)), s.queue[0];
    assert first == s.added - |s.queue|;
    assert s'.workers[w] == Running(first);
    forall t | 0 <= t < s'.added - |s'.queue|
      ensures IsRunning(s', t) != (t in s'.finished)
    {
      if t == first {
        assert t !in s.finished;
      } else {
        SameRunning(s, s', w, t);
      }
    }
  }

  lemma FinishKeepsTasks(s: Pool, w: nat, raises: bool)
    requires TasksInv(s) && Enabled(s, Finish(w, raises))
    ensures TasksInv(Apply(s, Finish(w, raises)))
  {
    var s', done := Apply(s, Finish(w, raises)), s.workers[w].task;
    forall t | 0 <= t < s'.added - |s'.queue|
      ensures IsRunning(s', t) != (t in s'.finished)
    {
      if t == done {
        assert forall v :: 0 <= v < |s.workers| && v != w ==> s.workers[v] != Running(done);
      } else {
        SameRunning(s, s', w, t);
      }
    }
  }

  lemma QuietKeepsTasks(s: Pool, a: Action)
    requires TasksInv(s) && Enabled(s, a) && (a.SeesEmpty? || a.Leave?)
    ensures TasksInv(Apply(s, a))
  {
    var s' := Apply(s, a);
    forall t | 0 <= t < s'.added - |s'.queue|
      ensures IsRunning(s', t) != (t in s'.finished)
    {
      SameRunning(s, s', a.w, t);
    }
  }

  lemma GrowKeepsTasks(s: Pool)
    requires TasksInv(s) && Enabled(s, Grow)
    ensures TasksInv(Apply(s, Grow))
  {
    var s' := Apply(s, Grow);
    forall t | 0 <= t < s'.added - |s'.queue|
      ensures IsRunning(s', t) != (t in s'.finished)
    {
      if IsRunning(s, t) {
        var v :| 0 <= v < |s.workers| && s.workers[v] == Running(t);
        assert s'.workers[v] == Running(t);
      }
      if IsRunning(s', t) {
        var v :| 0 <= v < |s'.workers| && s'.workers[v] == Running(t);
        assert s.workers[v] == Running(t);
      }
    }
  }

  lemma PutKeepsTasks(s: Pool)
    requires TasksInv(s) && Enabled(s, Put)
    ensures TasksInv(Apply(s, Put))
  {
    var s' := Apply(s, Put);
    assert forall t :: IsRunning(s', t) == IsRunning(s, t);
  }

  lemma StepKeeps(s: Pool, a: Action)
    requires Inv(s) && Enabled(s, a)
    ensures Inv(Apply(s, a))
  {
    CountersKept(s, a);
    match a
    case Grow => GrowKeepsTasks(s);
    case Put => PutKeepsTasks(s);
    case Take(w) => TakeKeepsTasks(s, w);
    case SeesEmpty(_) => QuietKeepsTasks(s, a);
    case Leave(_) => QuietKeepsTasks(s, a);
    case Finish(w, raises) => FinishKeepsTasks(s, w, raises);
  }

  lemma {:induction false} RunInv(states: seq<Pool>, actions: seq<Action>, i: nat)
    requires IsRun(states, actions) && i < |states|
    ensures Inv(states[i])
    ensures states[i].min == states[0].min && states[i].max == states[0].max
  {
    if i == 0 {
      StartInv(states[0].min, states[0].max);
    } else {
      RunInv(states, actions, i - 1);
      assert Enabled(states[i - 1], actions[i - 1]);
      StepKeeps(states[i - 1], actions[i - 1]);
    }
  }

  /** In every reachable state: the counter stays within its bounds, the live workers are those
      counted less those lost to raising tasks, and every task added is in exactly one of
      queued, running (in one worker) and finished. */
  lemma PoolIsSafe(states: seq<Pool>, actions: seq<Action>, i: nat, t: Task)
    requires IsRun(states, actions) && i < |states| && t < states[i].added
    ensures var s := states[i];
            && s.min <= s.active <= Max(s.min, s.max)
            && Live(s.workers) == s.active - LostCount(s.workers)
            && One(Queued(s, t)) + One(IsRunning(s, t)) + One(t in s.finished) == 1
            && (forall v, w :: RunningAt(s, t, v) && RunningAt(s, t, w) ==> v == w)
  {
    RunInv(states, actions, i);
    var s := states[i];
    if t >= s.added - |s.queue| {
      assert s.queue[t - (s.added - |s.queue|)] == t;
    }
  }

  // ---------- growth ----------

  /** The tasks for which `add_task` took the lock. */
  function Adds(actions: seq<Action>): nat {
    if actions == [] then 0 else Adds(actions[..|actions| - 1]) + One(actions[|actions| - 1].Grow?)
  }

  predicate NoneRetired(s: Pool) {
    forall w :: 0 <= w < |s.workers| ==> !s.workers[w].Retired?
  }

  /** One worker more for every task, up to the maximum, but never fewer than the minimum. */
  predicate Grown(s: Pool, adds: nat) {
    && |s.workers| == s.active
    && s.active == if s.max < s.min then s.min else if s.min + adds < s.max then s.min + adds else s.max
  }

  lemma NobodyComesBack(s: Pool, a: Action)
    requires Enabled(s, a) && NoneRetired(Apply(s, a))
    ensures NoneRetired(s)
  {
    var s' := Apply(s, a);
    forall w | 0 <= w < |s.workers|
      ensures !s.workers[w].Retired?
    {
      assert !s'.workers[w].Retired?;
    }
  }

  lemma StepGrows(s: Pool, a: Action, adds: nat)
    requires Enabled(s, a) && Grown(s, adds) && NoneRetired(Apply(s, a))
    ensures Grown(Apply(s, a), adds + One(a.Grow?))
  {
    if a.Leave? {
      assert !Apply(s, a).workers[a.w].Retired?;
    }
  }

  /** As long as no worker has retired, and so always if the queue never raises Empty, the
      pool has grown by one worker for each task added, up to its maximum. */
  lemma {:induction false} PoolGrows(states: seq<Pool>, actions: seq<Action>, i: nat)
    requires IsRun(states, actions) && i < |states| && NoneRetired(states[i])
    ensures states[i].min == states[0].min && states[i].max == states[0].max && Grown(states[i], Adds(actions[..i]))
  {
    if i == 0 {
      assert actions[..0] == [];
    } else {
      assert Enabled(states[i - 1], actions[i - 1]);
      NobodyComesBack(states[i - 1], actions[i - 1]);
      PoolGrows(states, actions, i - 1);
      StepGrows(states[i - 1], actions[i - 1], Adds(actions[..i - 1]));
      assert actions[..i][..i - 1] == actions[..i - 1];
    }
  }

  // ---------- progress ----------

  function Raised(actions: seq<Action>): nat {
    if actions == [] then 0 else Raised(actions[..|actions| - 1]) + One(Raises(actions[|actions| - 1]))
  }

  /** As many workers are lost as tasks have raised. */
  lemma {:induction false} LostByRaising(states: seq<Pool>, actions: seq<Action>, i: nat)
    requires IsRun(states, actions) && i < |states|
    ensures LostCount(states[i].workers) == Raised(actions[..i])
  {
    if i == 0 {
      CountsIdle(states[0].min);
    } else {
      LostByRaising(states, actions, i - 1);
      var s, a := states[i - 1], actions[i - 1];
      assert Enabled(s, a);
      assert actions[..i][..i - 1] == actions[..i - 1];
      match a
      case Grow => CountsSnoc(s.workers);
      case Put =>
      case Take(w) => CountsUpdate(s.workers, w, Running(s.queue[0]));
      case SeesEmpty(w) => CountsUpdate(s.workers, w, SawEmpty);
      case Leave(w) => CountsUpdate(s.workers, w, if s.active > s.min then Retired else Idle);
      case Finish(w, raises) => CountsUpdate(s.workers, w, if raises then Lost else Idle);
    }
  }

  /** A task waits, and nothing will happen unless another task is added. */
  ghost predicate Stuck(s: Pool) {
    s.queue != [] && forall a: Action :: Enabled(s, a) ==> a.Grow?
  }

  /** A pool gets stuck exactly when a task waits and every worker the counter stands for has
      been lost to a task that raised. */
  lemma StuckExactly(states: seq<Pool>, actions: seq<Action>, i: nat)
    requires IsRun(states, actions) && i < |states|
    ensures Stuck(states[i]) <==>
            states[i].queue != [] && !states[i].adding && states[i].active == Raised(actions[..i])
  {
    RunInv(states, actions, i);
    LostByRaising(states, actions, i);
    var s := states[i];
    CountsBound(s.workers);
    if s.queue != [] && !s.adding && Live(s.workers) > 0 {
      var w: nat :| w < |s.workers| && IsLive(s.workers[w]);
      var a := if s.workers[w].Idle? then Take(w) else if s.workers[w].SawEmpty? then Leave(w) else Finish(w, false);
      assert Enabled(s, a) && !a.Grow?;
    }
    if s.adding {
      assert Enabled(s, Put);
    }
    if Live(s.workers) == 0 {
      NoneLive(s.workers);
    }
  }

  lemma {:induction false} NoneLive(ws: seq<Worker>)
    requires Live(ws) == 0
    ensures forall i :: 0 <= i < |ws| ==> !IsLive(ws[i])
  {
    if ws != [] {
      NoneLive(ws[1..]);
      forall i | 0 <= i < |ws|
        ensures !IsLive(ws[i])
      {
        assert i > 0 ==> ws[i] == ws[1..][i - 1];
      }
    }
  }

  /** So fewer raising tasks than the minimum number of workers never stop the pool. */
  lemma NeverStuck(states: seq<Pool>, actions: seq<Action>, i: nat)
    requires IsRun(states, actions) && i < |states|
    requires Raised(actions[..i]) < states[0].min
    ensures !Stuck(states[i])
  {
    RunInv(states, actions, i);
    StuckExactly(states, actions, i);
  }

  ghost predicate Calm(actions: seq<Action>, retires: bool) {
    forall a :: a in actions ==> !Raises(a) && (!retires ==> !a.SeesEmpty?)
  }

  /** Some run without raising tasks (and, unless `retires`, without Empty) ends stuck. */
  ghost predicate CanStick(min: nat, max: nat, retires: bool) {
    exists states: seq<Pool>, actions: seq<Action> ::
      IsRun(states, actions) && states[0] == Start(min, max) && Calm(actions, retires) && Stuck(states[|actions|])
  }

  lemma {:induction false} CalmRaisesNothing(actions: seq<Action>)
    requires Calm(actions, true)
    ensures Raised(actions) == 0
  {
    if actions != [] {
      assert actions[|actions| - 1] in actions;
      CalmRaisesNothing(actions[..|actions| - 1]);
    }
  }

  /** If no worker ever sees Empty, the workers once started stay. */
  lemma {:induction false} WithoutRetiring(states: seq<Pool>, actions: seq<Action>, i: nat)
    requires IsRun(states, actions) && i < |states| && Calm(actions, false)
    requires states[0].max > 0
    ensures var s := states[i];
            && (forall w :: 0 <= w < |s.workers| ==> !s.workers[w].SawEmpty?)
            && (s.adding || s.queue != [] || s.added > 0 ==> s.active > 0)
  {
    if i > 0 {
      WithoutRetiring(states, actions, i - 1);
      RunInv(states, actions, i - 1);
      assert Enabled(states[i - 1], actions[i - 1]);
      assert actions[i - 1] in actions;
      NotRetiring(states[i - 1], actions[i - 1]);
    }
  }

  /** No worker has seen the queue empty, and where a task is or was there is a worker. */
  predicate Manned(s: Pool) {
    && (forall w :: 0 <= w < |s.workers| ==> !s.workers[w].SawEmpty?)
    && (s.adding || s.queue != [] || s.added > 0 ==> s.active > 0)
  }

  lemma NotRetiring(s: Pool, a: Action)
    requires Inv(s) && Enabled(s, a) && Calm([a], false) && s.max > 0 && Manned(s)
    ensures Manned(Apply(s, a))
  {
    assert a in [a];
  }

  /** With no minimum, the worker started for a task can see the queue empty before the task
      is put there, and leave: the task then waits with nobody to take it. */
  lemma EmptyPoolSticks(max: nat, retires: bool)
    requires retires || max == 0
    ensures CanStick(0, max, retires)
  {
    var s0 := Start(0, max);
    var s1 := Apply(s0, Grow);
    if max == 0 {
      var s2 := Apply(s1, Put);
      var states, actions := [s0, s1, s2], [Grow, Put];
      assert IsRun(states, actions) && Stuck(states[2]);
    } else {
      assert s1.workers[0] == Idle;
      var s2 := Apply(s1, SeesEmpty(0));
      var s3 := Apply(s2, Put);
      var s4 := Apply(s3, Leave(0));
      var states, actions := [s0, s1, s2, s3, s4], [Grow, SeesEmpty(0), Put, Leave(0)];
      assert IsRun(states, actions) && Stuck(states[4]);
    }
  }

  /** Without raising tasks a waiting task can be left with nobody to take it if and only if
      the pool has no minimum, and either workers do retire (as meant) or, as written, there
      may be no worker at all. */
  lemma SticksExactly(min: nat, max: nat, retires: bool)
    ensures CanStick(min, max, retires) <==> min == 0 && (retires || max == 0)
  {
    if CanStick(min, max, retires) {
      var states: seq<Pool>, actions: seq<Action> :|
        IsRun(states, actions) && states[0] == Start(min, max) && Calm(actions, retires) && Stuck(states[|actions|]);
      var n := |actions|;
      assert actions[..n] == actions;
      CalmRaisesNothing(actions);
      StuckExactly(states, actions, n);
      RunInv(states, actions, n);
      if !retires && max > 0 {
        WithoutRetiring(states, actions, n);
      }
    }
    if min == 0 && (retires || max == 0) {
      EmptyPoolSticks(max, retires);
    }
  }

  /** How much work is left: each waiting task is taken and finished, and workers that found
      the queue empty come back or leave. */
  function Work(s: Pool): nat {
    (2 * |s.queue| + RunningCount(s.workers)) * (|s.workers| + 1) + EmptyCount(s.workers)
  }

  /** While a task waits, every step that adds none makes progress. */
  lemma WorkDecreases(s: Pool, a: Action)
    requires Enabled(s, a) && !a.Grow? && !a.Put? && s.queue != []
    ensures Work(Apply(s, a)) < Work(s)
  {
    var s', n := Apply(s, a), |s.workers| + 1;
    CountsBound(s.workers);
    CountsBound(s'.workers);
    var m, m' := 2 * |s.queue| + RunningCount(s.workers), 2 * |s'.queue| + RunningCount(s'.workers);
    match a {
      case Take(w) => CountsUpdate(s.workers, w, Running(s.queue[0])); LessByOne(m, m', n);
      case Leave(w) => CountsUpdate(s.workers, w, if s.active > s.min then Retired else Idle);
      case Finish(w, raises) => CountsUpdate(s.workers, w, if raises then Lost else Idle); LessByOne(m, m', n);
    }
  }

  lemma LessByOne(m: nat, m': nat, n: nat)
    requires m == m' + 1
    ensures m * n == m' * n + n
  {
  }

  /** So the queue drains: a stretch of a run in which nothing is added and a task is always
      waiting is no longer than the work there was at its start. */
  lemma {:induction false} QueueDrains(states: seq<Pool>, actions: seq<Action>, i: nat, j: nat)
    requires IsRun(states, actions) && i <= j < |states|
    requires forall k :: i <= k < j ==> !actions[k].Grow? && !actions[k].Put? && states[k].queue != []
    ensures j - i + Work(states[j]) <= Work(states[i])
    decreases j - i
  {
    if i < j {
      QueueDrains(states, actions, i, j - 1);
      assert Enabled(states[j - 1], actions[j - 1]);
      WorkDecreases(states[j - 1], actions[j - 1]);
    }
  }

  // ---------- the steps as they are run ----------

  /** The module's globals and the pool's fields; each method is what one thread does between
      the points named above. */
  class DynamicPool {
    const threadsMin: nat
    const threadsMax: nat
    var threadsActive: int
    var workers: seq<Worker>
    var locked: bool
    var tasks: seq<Task>
    var done: set<Task>
    var count: nat

    ghost function View(): Pool
      reads this
    {
      Pool(threadsMin, threadsMax, threadsActive, workers, locked, tasks, done, count)
    }

    constructor (min: nat, max: nat)
      ensures View() == Start(min, max)
    {
      threadsMin, threadsMax, threadsActive := min, max, min;
      workers, locked, tasks, done, count := [], false, [], {}, 0;
      new;
      for i := 0 to min
        invariant workers == seq(i, _ => Idle)
        invariant View() == Start(min, max).(workers := workers)
      {
        workers := workers + [Idle];
      }
    }

    /** `add_task` up to the point where the new worker can be seen. */
    method BeginAdd()
      requires Enabled(View(), Grow)
      modifies this
      ensures View() == Apply(old(View()), Grow)
    {
      locked := true;
      if threadsActive < threadsMax {
        workers := workers + [Idle];
        threadsActive := threadsActive + 1;
      }
    }

    method EndAdd()
      requires Enabled(View(), Put)
      modifies this
      ensures View() == Apply(old(View()), Put)
    {
      tasks, count := tasks + [count], count + 1;
      locked := false;
    }

    /** A worker's call of `get`, which must find a task or raise Empty. */
    method Get(w: nat)
      requires w < |workers| && workers[w].Idle?
      modifies this
      ensures View() == Apply(old(View()), if old(tasks) != [] then Take(w) else SeesEmpty(w))
    {
      if tasks != [] {
        workers, tasks := workers[w := Running(tasks[0])], tasks[1..];
      } else {
        workers := workers[w := SawEmpty];
      }
    }

    /** The handler of Empty: leave if there are workers to spare, otherwise try again. */
    method OnEmpty(w: nat)
      requires Enabled(View(), Leave(w))
      modifies this
      ensures View() == Apply(old(View()), Leave(w))
    {
      if threadsActive > threadsMin {
        threadsActive := threadsActive - 1;
        workers := workers[w := Retired];
      } else {
        workers := workers[w := Idle];
      }
    }

    /** The end of a task: if it raised, `sys.exit` ends the worker and no counter changes. */
    method EndTask(w: nat, raises: bool)
      requires Enabled(View(), Finish(w, raises))
      modifies this
      ensures View() == Apply(old(View()), Finish(w, raises))
    {
      done := done + {workers[w].task};
      workers := workers[w := if raises then Lost else Idle];
    }
  }
}
