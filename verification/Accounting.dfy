/** GridWay's accounting (gridway-5.8/src/acct/gw_acct.c): records written under (start time,
job, restart) keys, two indexes by user and by host that the database keeps through callbacks,
and reports that join the indexes. The store is a map and an index a map from names to the
keys of their records; a cursor gives an index's entries in no order that matters here.

The reports must agree with a plain scan of the records, and with each other.
 */
module Accounting {
  import opened Basics

  datatype Key = Key(startTime: int, jobId: int, restarted: nat)

  /** gw_migration_reason_t. */
  datatype Reason =
    | NONE | USER_REQUESTED | SUSPENSION | RESCHEDULING_TIMEOUT | SELF_MIGRATION | PERFORMANCE | STOP_RESUME
    | EXECUTION_ERROR | KILL | LIMIT

  // gridway-5.8/include/gw_history.h:32-54
  const EXIT_TIME := 1
  const SUSPENSION_TIME := 2
  const ACTIVE_TIME := 4
  const PROLOG_START_TIME := 6
  const PROLOG_EXIT_TIME := 7
  const EPILOG_START_TIME := 12
  const EPILOG_EXIT_TIME := 13

  type Stats = s: seq<int> | |s| == 16 witness seq(16, _ => 0)

  datatype Data = Data(rank: int, reason: Reason, username: string, hostname: string, stats: Stats)

  datatype Step = Step(rank: int, reason: Reason, hostname: string, stats: Stats)

  datatype GwJob = GwJob(startTime: int, id: int, owner: string, history: seq<Step>)

  datatype Tables = Tables(primary: map<Key, Data>, users: map<string, set<Key>>, hosts: map<string, set<Key>>)

  // ---------- the indexes ----------

  /** An index lists, under each name, the keys of the records with that name; a name without
      records is not in it. */
  ghost predicate Indexes(index: map<string, set<Key>>, primary: map<Key, Data>, name: Data -> string) {
    && (forall n :: n in index ==> index[n] != {})
    && (forall n, k :: n in index && k in index[n] ==> k in primary && name(primary[k]) == n)
    && (forall k :: k in primary ==> name(primary[k]) in index && k in index[name(primary[k])])
  }

  function UserOf(d: Data): string { d.username }

  function HostOf(d: Data): string { d.hostname }

  ghost predicate Consistent(t: Tables) {
    Indexes(t.users, t.primary, UserOf) && Indexes(t.hosts, t.primary, HostOf)
  }

  function AddToIndex(index: map<string, set<Key>>, name: string, k: Key): map<string, set<Key>> {
    index[name := (if name in index then index[name] else {}) + {k}]
  }

  /** A put that never overwrites. */
  function Put(t: Tables, k: Key, d: Data): Tables {
    if k in t.primary then t
    else Tables(t.primary[k := d], AddToIndex(t.users, d.username, k), AddToIndex(t.hosts, d.hostname, k))
  }

  lemma PutKeeps(t: Tables, k: Key, d: Data)
    requires Consistent(t)
    ensures Consistent(Put(t, k, d))
  {
    if k !in t.primary {
      AddKeeps(t.users, t.primary, UserOf, k, d);
      AddKeeps(t.hosts, t.primary, HostOf, k, d);
    }
  }

  lemma AddKeeps(index: map<string, set<Key>>, primary: map<Key, Data>, name: Data -> string, k: Key, d: Data)
    requires Indexes(index, primary, name) && k !in primary
    ensures Indexes(AddToIndex(index, name(d), k), primary[k := d], name)
  {
  }

  // ---------- writing a job ----------

  function KeyOf(job: GwJob, i: nat): Key { Key(job.startTime, job.id, i) }

  function DataOf(job: GwJob, i: nat): Data
    requires i < |job.history|
  {
    var r := job.history[i];
    Data(r.rank, r.reason, job.owner, r.hostname, r.stats)
  }

  function Written(t: Tables, job: GwJob, n: nat): Tables
    requires n <= |job.history|
  {
    if n == 0 then t else Put(Written(t, job, n - 1), KeyOf(job, n - 1), DataOf(job, n - 1))
  }

  /** A job's key for one of the first `n` steps of its history. */
  predicate KeyBelow(job: GwJob, n: nat, k: Key) {
    k == KeyOf(job, k.restarted) && k.restarted < n
  }

  lemma {:induction false} WriteKeeps(t: Tables, job: GwJob, n: nat)
    requires Consistent(t) && n <= |job.history|
    ensures Consistent(Written(t, job, n))
  {
    if n > 0 {
      WriteKeeps(t, job, n - 1);
      PutKeeps(Written(t, job, n - 1), KeyOf(job, n - 1), DataOf(job, n - 1));
    }
  }

  /** Writing a job adds a record for every step of its history that has none yet, and changes
      no record that is there. */
  lemma {:induction false} WritesHistory(t: Tables, job: GwJob, n: nat, k: Key)
    requires n <= |job.history|
    ensures var w := Written(t, job, n).primary;
            && (k in w <==> k in t.primary || KeyBelow(job, n, k))
            && (k in w ==> w[k] == if k in t.primary then t.primary[k] else DataOf(job, k.restarted))
  {
    if n > 0 {
      WritesHistory(t, job, n - 1, k);
      WritesHistory(t, job, n - 1, KeyOf(job, n - 1));
    }
  }

  /** The index is determined by the records. */
  lemma IndexesAgree(i: map<string, set<Key>>, j: map<string, set<Key>>, primary: map<Key, Data>, name: Data -> string)
    requires Indexes(i, primary, name) && Indexes(j, primary, name)
    ensures i == j
  {
    IndexWithin(i, j, primary, name);
    IndexWithin(j, i, primary, name);
    forall n | n in i
      ensures n in j && i[n] == j[n]
    {
    }
  }

  lemma IndexWithin(i: map<string, set<Key>>, j: map<string, set<Key>>, primary: map<Key, Data>, name: Data -> string)
    requires Indexes(i, primary, name) && Indexes(j, primary, name)
    ensures forall n :: n in i ==> n in j && i[n] <= j[n]
  {
    forall n | n in i
      ensures n in j && i[n] <= j[n]
    {
      var k :| k in i[n];
      assert name(primary[k]) == n;
      forall k | k in i[n]
        ensures k in j[n]
      {
        assert name(primary[k]) == n;
      }
    }
  }

  /** The first `n` records of `job` are stored already, or `later` has the same ones. */
  predicate Overlays(t: Tables, job: GwJob, later: GwJob, n: nat)
    requires n <= |job.history|
  {
    forall i :: 0 <= i < n ==>
      KeyOf(job, i) in t.primary || (i < |later.history| && DataOf(job, i) == DataOf(later, i))
  }

  /** Records are numbered from the head of the history, where new ones are put
      (gw_history.c:164-165).  Writing a job and then writing it again with another history
      gives what writing the second one alone gives if and only if no record that the first
      write made stands where the second history has another one. */
  lemma RewriteExactly(t: Tables, job: GwJob, later: GwJob)
    requires Consistent(t)
    requires later.id == job.id && later.startTime == job.startTime && later.owner == job.owner
    ensures Written(Written(t, job, |job.history|), later, |later.history|) == Written(t, later, |later.history|)
       <==> Overlays(t, job, later, |job.history|)
  {
    var once := Written(t, job, |job.history|);
    var twice, direct := Written(once, later, |later.history|), Written(t, later, |later.history|);
    if Overlays(t, job, later, |job.history|) {
      forall k
        ensures (k in twice.primary <==> k in direct.primary)
             && (k in twice.primary ==> twice.primary[k] == direct.primary[k])
      {
        RewrittenAt(t, job, later, k);
      }
      assert twice.primary == direct.primary;
      WriteKeeps(t, job, |job.history|);
      WriteKeeps(once, later, |later.history|);
      WriteKeeps(t, later, |later.history|);
      IndexesAgree(twice.users, direct.users, direct.primary, UserOf);
      IndexesAgree(twice.hosts, direct.hosts, direct.primary, HostOf);
    }
    forall i | 0 <= i < |job.history| && twice == direct && KeyOf(job, i) !in t.primary
      ensures i < |later.history| && DataOf(job, i) == DataOf(later, i)
    {
      RewrittenAt(t, job, later, KeyOf(job, i));
    }
  }

  /** One record after both writes. */
  lemma RewrittenAt(t: Tables, job: GwJob, later: GwJob, k: Key)
    requires later.id == job.id && later.startTime == job.startTime
    ensures var twice := Written(Written(t, job, |job.history|), later, |later.history|).primary;
            && (k in twice <==> k in t.primary || KeyBelow(job, |job.history|, k) || KeyBelow(later, |later.history|, k))
            && (k in twice ==> twice[k] == if k in t.primary then t.primary[k]
                                           else if KeyBelow(job, |job.history|, k) then DataOf(job, k.restarted)
                                           else DataOf(later, k.restarted))
    ensures var direct := Written(t, later, |later.history|).primary;
            && (k in direct <==> k in t.primary || KeyBelow(later, |later.history|, k))
            && (k in direct ==> direct[k] == if k in t.primary then t.primary[k] else DataOf(later, k.restarted))
  {
    WritesHistory(t, job, |job.history|, k);
    WritesHistory(Written(t, job, |job.history|), later, |later.history|, k);
    WritesHistory(t, later, |later.history|, k);
  }

  /** So when a job that has been written gets a new record, at the head, and is written again,
      the new record is lost and the oldest one is stored twice. */
  lemma NewestIsLost(t: Tables, startTime: int, id: int, owner: string, oldest: Step, newest: Step)
    requires Consistent(t) && Key(startTime, id, 0) !in t.primary && Key(startTime, id, 1) !in t.primary
    requires newest != oldest
    ensures var job, grown := GwJob(startTime, id, owner, [oldest]), GwJob(startTime, id, owner, [newest] + [oldest]);
            var twice := Written(Written(t, job, 1), grown, 2);
            && Key(startTime, id, 0) in twice.primary && Key(startTime, id, 1) in twice.primary
            && twice.primary[Key(startTime, id, 0)] == DataOf(job, 0) == twice.primary[Key(startTime, id, 1)]
            && twice != Written(t, grown, 2)
  {
    var job, grown := GwJob(startTime, id, owner, [oldest]), GwJob(startTime, id, owner, [newest] + [oldest]);
    RewrittenAt(t, job, grown, KeyOf(job, 0));
    RewrittenAt(t, job, grown, KeyOf(job, 1));
    RewriteExactly(t, job, grown);
    assert grown.history[0] == newest && grown.history[1] == oldest;
  }

  // ---------- what a report adds up ----------

  datatype Acct = Acct(
    transfer: int, execution: int, suspension: int, tot: int,
    succ: int, user: int, susp: int, disc: int, self: int, perf: int, s_r: int, err: int, kill: int)

  const ZERO := Acct(0, 0, 0, 0, 0, 0, 0, 0, 0, 0, 0, 0, 0)

  function Plus(a: Acct, b: Acct): Acct {
    Acct(a.transfer + b.transfer, a.execution + b.execution, a.suspension + b.suspension, a.tot + b.tot,
         a.succ + b.succ, a.user + b.user, a.susp + b.susp, a.disc + b.disc, a.self + b.self, a.perf + b.perf,
         a.s_r + b.s_r, a.err + b.err, a.kill + b.kill)
  }

  function TotalTime(ini: int, end: int, aend: int): int {
    if ini == 0 then 0 else if end != 0 then end - ini else if aend != 0 then aend - ini else 0
  }

  /** The times a record adds, and itself. */
  function Times(s: Stats): Acct {
    Acct(TotalTime(s[PROLOG_START_TIME], s[PROLOG_EXIT_TIME], s[EXIT_TIME]) +
         TotalTime(s[EPILOG_START_TIME], s[EPILOG_EXIT_TIME], s[EXIT_TIME]),
         s[ACTIVE_TIME], s[SUSPENSION_TIME], 1, 0, 0, 0, 0, 0, 0, 0, 0, 0)
  }

  /** The one reason counter it adds to, if any. */
  function Counter(r: Reason): Acct {
    Acct(0, 0, 0, 0,
         One(r == NONE), One(r == USER_REQUESTED), One(r == SUSPENSION), One(r == RESCHEDULING_TIMEOUT),
         One(r == SELF_MIGRATION), One(r == PERFORMANCE), One(r == STOP_RESUME), One(r == EXECUTION_ERROR),
         One(r == KILL))
  }

  /** What one record adds to a report from time `from`. */
  function Share(k: Key, d: Data, from: int): Acct {
    if k.startTime < from then ZERO else Plus(Times(d.stats), Counter(d.reason))
  }

  function Shares(primary: map<Key, Data>, from: int): map<Key, Acct> {
    map k | k in primary :: Share(k, primary[k], from)
  }

  /** The shares of a set of records, added up in any order. */
  ghost function Sum(shares: map<Key, Acct>, keys: set<Key>): Acct
    requires keys <= shares.Keys
  {
    if keys == {} then ZERO
    else
      var k :| k in keys;
      Plus(shares[k], Sum(shares, keys - {k}))
  }

  lemma PlusSwaps(a: Acct, b: Acct, c: Acct)
    ensures Plus(a, Plus(b, c)) == Plus(b, Plus(a, c)) && Plus(a, Plus(b, c)) == Plus(Plus(a, b), c)
    ensures Plus(ZERO, a) == a
  {
  }

  lemma {:induction false} SumPick(shares: map<Key, Acct>, keys: set<Key>, k: Key)
    requires keys <= shares.Keys && k in keys
    ensures Sum(shares, keys) == Plus(shares[k], Sum(shares, keys - {k}))
    decreases keys
  {
    var first :| first in keys && Sum(shares, keys) == Plus(shares[first], Sum(shares, keys - {first}));
    if first != k {
      SumPick(shares, keys - {first}, k);
      SumPick(shares, keys - {k}, first);
      assert keys - {first} - {k} == keys - {k} - {first};
      PlusSwaps(shares[first], shares[k], Sum(shares, keys - {first} - {k}));
    }
  }

  lemma {:induction false} SumUnion(shares: map<Key, Acct>, a: set<Key>, b: set<Key>)
    requires a <= shares.Keys && b <= shares.Keys && a !! b
    ensures Sum(shares, a + b) == Plus(Sum(shares, a), Sum(shares, b))
    decreases a
  {
    if a == {} {
      assert a + b == b;
      PlusSwaps(Sum(shares, b), ZERO, ZERO);
    } else {
      var k :| k in a;
      SumPick(shares, a, k);
      SumPick(shares, a + b, k);
      SumUnion(shares, a - {k}, b);
      assert (a + b) - {k} == (a - {k}) + b;
      PlusSwaps(shares[k], Sum(shares, a - {k}), Sum(shares, b));
    }
  }

  // ---------- the join and the scan ----------

  /** The records of host `h` and user `u`, found without the indexes. */
  function Scanned(primary: map<Key, Data>, h: string, u: string): set<Key> {
    set k | k in primary && primary[k].hostname == h && primary[k].username == u
  }

  ghost predicate HasHost(primary: map<Key, Data>, h: string) { exists k :: k in primary && primary[k].hostname == h }

  ghost predicate HasUser(primary: map<Key, Data>, u: string) { exists k :: k in primary && primary[k].username == u }

  /** The join of the two indexes meets the records the scan finds, and it is refused exactly
      when the host or the user has no record at all. */
  lemma JoinIsScan(t: Tables, h: string, u: string)
    requires Consistent(t)
    ensures h in t.hosts <==> HasHost(t.primary, h)
    ensures u in t.users <==> HasUser(t.primary, u)
    ensures h in t.hosts && u in t.users ==> t.hosts[h] * t.users[u] == Scanned(t.primary, h, u)
  {
    if h in t.hosts {
      var k :| k in t.hosts[h];
      assert k in t.primary && HostOf(t.primary[k]) == h;
    }
    if u in t.users {
      var k :| k in t.users[u];
      assert k in t.primary && UserOf(t.primary[k]) == u;
    }
    if HasHost(t.primary, h) {
      var k :| k in t.primary && t.primary[k].hostname == h;
      assert HostOf(t.primary[k]) in t.hosts;
    }
    if HasUser(t.primary, u) {
      var k :| k in t.primary && t.primary[k].username == u;
      assert UserOf(t.primary[k]) in t.users;
    }
    if h in t.hosts && u in t.users {
      forall k
        ensures k in t.hosts[h] * t.users[u] <==> k in Scanned(t.primary, h, u)
      {
        if k in Scanned(t.primary, h, u) {
          assert HostOf(t.primary[k]) == h && UserOf(t.primary[k]) == u;
        }
        if k in t.hosts[h] * t.users[u] {
          assert HostOf(t.primary[k]) == h && UserOf(t.primary[k]) == u;
        }
      }
    }
  }

  // ---------- rows and their totals ----------

  datatype Row = Row(name: string, acct: Acct)

  function Total(rows: seq<Row>): Acct {
    if rows == [] then ZERO else Plus(rows[0].acct, Total(rows[1..]))
  }

  /** One row for each name. */
  ghost predicate RowPerName(rows: seq<Row>, names: set<string>) {
    && (forall i, k :: 0 <= i < k < |rows| ==> rows[i].name != rows[k].name)
    && (forall n :: n in names <==> exists i :: 0 <= i < |rows| && rows[i].name == n)
  }

  function Named(primary: map<Key, Data>, keys: set<Key>, name: Data -> string, n: string): set<Key>
    requires keys <= primary.Keys
  {
    set k | k in keys && name(primary[k]) == n
  }

  /** The names on the rows are distinct, and the names of all these records are among them. */
  ghost predicate Splits(primary: map<Key, Data>, keys: set<Key>, name: Data -> string, rows: seq<Row>)
    requires keys <= primary.Keys
  {
    && (forall i, k :: 0 <= i < k < |rows| ==> rows[i].name != rows[k].name)
    && (forall k :: k in keys ==> exists i :: 0 <= i < |rows| && rows[i].name == name(primary[k]))
  }

  /** Each row holds the sum of the records with its name. */
  ghost predicate RowsHold(primary: map<Key, Data>, keys: set<Key>, name: Data -> string, from: int, rows: seq<Row>)
    requires keys <= primary.Keys
  {
    forall i :: 0 <= i < |rows| ==>
      rows[i].acct == Sum(Shares(primary, from), Named(primary, keys, name, rows[i].name))
  }

  lemma SplitsRest(primary: map<Key, Data>, keys: set<Key>, name: Data -> string, rows: seq<Row>)
    requires keys <= primary.Keys && rows != [] && Splits(primary, keys, name, rows)
    ensures Splits(primary, keys - Named(primary, keys, name, rows[0].name), name, rows[1..])
  {
    var others := keys - Named(primary, keys, name, rows[0].name);
    forall k | k in others
      ensures exists i :: 0 <= i < |rows[1..]| && rows[1..][i].name == name(primary[k])
    {
      var i :| 0 <= i < |rows| && rows[i].name == name(primary[k]);
      assert rows[1..][i - 1] == rows[i];
    }
  }

  lemma HoldsRest(primary: map<Key, Data>, keys: set<Key>, name: Data -> string, from: int, rows: seq<Row>)
    requires keys <= primary.Keys && rows != [] && Splits(primary, keys, name, rows)
    requires RowsHold(primary, keys, name, from, rows)
    ensures RowsHold(primary, keys - Named(primary, keys, name, rows[0].name), name, from, rows[1..])
  {
    var others := keys - Named(primary, keys, name, rows[0].name);
    forall i | 0 <= i < |rows[1..]|
      ensures rows[1..][i].acct == Sum(Shares(primary, from), Named(primary, others, name, rows[1..][i].name))
    {
      assert rows[1..][i] == rows[i + 1] && rows[i + 1].name != rows[0].name;
      assert Named(primary, others, name, rows[i + 1].name) == Named(primary, keys, name, rows[i + 1].name);
    }
  }

  lemma SumSplits(shares: map<Key, Acct>, keys: set<Key>, mine: set<Key>)
    requires mine <= keys <= shares.Keys
    ensures Sum(shares, keys) == Plus(Sum(shares, mine), Sum(shares, keys - mine))
  {
    assert mine + (keys - mine) == keys;
    SumUnion(shares, mine, keys - mine);
  }

  /** Rows that split a set of records by name add up to the whole set. */
  lemma {:induction false} RowsSplit(primary: map<Key, Data>, keys: set<Key>, name: Data -> string, from: int, rows: seq<Row>)
    requires keys <= primary.Keys && Splits(primary, keys, name, rows) && RowsHold(primary, keys, name, from, rows)
    ensures Total(rows) == Sum(Shares(primary, from), keys)
    decreases |rows|
  {
    if rows == [] {
      assert forall k :: k !in keys;
      assert keys == {};
    } else {
      var mine := Named(primary, keys, name, rows[0].name);
      SplitsRest(primary, keys, name, rows);
      HoldsRest(primary, keys, name, from, rows);
      RowsSplit(primary, keys - mine, name, from, rows[1..]);
      SumSplits(Shares(primary, from), keys, mine);
    }
  }

  /** The rows of a by-user report: one per host, with the join of that host and the user. */
  ghost predicate UserReport(t: Tables, u: string, from: int, rows: seq<Row>)
    requires Consistent(t)
  {
    && RowPerName(rows, t.hosts.Keys)
    && forall i :: 0 <= i < |rows| ==> rows[i].acct == Sum(Shares(t.primary, from), Scanned(t.primary, rows[i].name, u))
  }

  /** The rows of a by-host report: one per user, with the join of the host and that user. */
  ghost predicate HostReport(t: Tables, h: string, from: int, rows: seq<Row>)
    requires Consistent(t)
  {
    && RowPerName(rows, t.users.Keys)
    && forall i :: 0 <= i < |rows| ==> rows[i].acct == Sum(Shares(t.primary, from), Scanned(t.primary, h, rows[i].name))
  }

  function AllNamed(primary: map<Key, Data>, name: Data -> string, n: string): set<Key> {
    Named(primary, primary.Keys, name, n)
  }

  lemma UserReportTotal(t: Tables, u: string, from: int, rows: seq<Row>)
    requires Consistent(t) && UserReport(t, u, from, rows)
    ensures Total(rows) == Sum(Shares(t.primary, from), AllNamed(t.primary, UserOf, u))
  {
    var keys := AllNamed(t.primary, UserOf, u);
    forall k | k in keys
      ensures exists i :: 0 <= i < |rows| && rows[i].name == HostOf(t.primary[k])
    {
      assert HostOf(t.primary[k]) in t.hosts.Keys;
    }
    forall i | 0 <= i < |rows|
      ensures rows[i].acct == Sum(Shares(t.primary, from), Named(t.primary, keys, HostOf, rows[i].name))
    {
      assert Named(t.primary, keys, HostOf, rows[i].name) == Scanned(t.primary, rows[i].name, u);
    }
    RowsSplit(t.primary, keys, HostOf, from, rows);
  }

  lemma HostReportTotal(t: Tables, h: string, from: int, rows: seq<Row>)
    requires Consistent(t) && HostReport(t, h, from, rows)
    ensures Total(rows) == Sum(Shares(t.primary, from), AllNamed(t.primary, HostOf, h))
  {
    var keys := AllNamed(t.primary, HostOf, h);
    forall k | k in keys
      ensures exists i :: 0 <= i < |rows| && rows[i].name == UserOf(t.primary[k])
    {
      assert UserOf(t.primary[k]) in t.users.Keys;
    }
    forall i | 0 <= i < |rows|
      ensures rows[i].acct == Sum(Shares(t.primary, from), Named(t.primary, keys, UserOf, rows[i].name))
    {
      assert Named(t.primary, keys, UserOf, rows[i].name) == Scanned(t.primary, h, rows[i].name);
    }
    RowsSplit(t.primary, keys, UserOf, from, rows);
  }

  /** The total of each user's report, as a row. */
  ghost predicate UserTotals(t: Tables, from: int, totals: seq<Row>)
    requires Consistent(t)
  {
    && RowPerName(totals, t.users.Keys)
    && forall i :: 0 <= i < |totals| ==>
         exists rows :: UserReport(t, totals[i].name, from, rows) && totals[i].acct == Total(rows)
  }

  ghost predicate HostTotals(t: Tables, from: int, totals: seq<Row>)
    requires Consistent(t)
  {
    && RowPerName(totals, t.hosts.Keys)
    && forall i :: 0 <= i < |totals| ==>
         exists rows :: HostReport(t, totals[i].name, from, rows) && totals[i].acct == Total(rows)
  }

  lemma UserTotalsAdd(t: Tables, from: int, totals: seq<Row>)
    requires Consistent(t) && UserTotals(t, from, totals)
    ensures Total(totals) == Sum(Shares(t.primary, from), t.primary.Keys)
  {
    forall i | 0 <= i < |totals|
      ensures totals[i].acct == Sum(Shares(t.primary, from), AllNamed(t.primary, UserOf, totals[i].name))
    {
      var rows :| UserReport(t, totals[i].name, from, rows) && totals[i].acct == Total(rows);
      UserReportTotal(t, totals[i].name, from, rows);
    }
    forall k | k in t.primary.Keys
      ensures exists i :: 0 <= i < |totals| && totals[i].name == UserOf(t.primary[k])
    {
      assert UserOf(t.primary[k]) in t.users.Keys;
    }
    RowsSplit(t.primary, t.primary.Keys, UserOf, from, totals);
  }

  lemma HostTotalsAdd(t: Tables, from: int, totals: seq<Row>)
    requires Consistent(t) && HostTotals(t, from, totals)
    ensures Total(totals) == Sum(Shares(t.primary, from), t.primary.Keys)
  {
    forall i | 0 <= i < |totals|
      ensures totals[i].acct == Sum(Shares(t.primary, from), AllNamed(t.primary, HostOf, totals[i].name))
    {
      var rows :| HostReport(t, totals[i].name, from, rows) && totals[i].acct == Total(rows);
      HostReportTotal(t, totals[i].name, from, rows);
    }
    forall k | k in t.primary.Keys
      ensures exists i :: 0 <= i < |totals| && totals[i].name == HostOf(t.primary[k])
    {
      assert HostOf(t.primary[k]) in t.hosts.Keys;
    }
    RowsSplit(t.primary, t.primary.Keys, HostOf, from, totals);
  }

  /** For every time and every counter, the by-user reports of all users and the by-host reports
      of all hosts add up to the same: the scan of all records. */
  lemma MarginalsAgree(t: Tables, from: int, users: seq<Row>, hosts: seq<Row>)
    requires Consistent(t) && UserTotals(t, from, users) && HostTotals(t, from, hosts)
    ensures Total(users) == Total(hosts) == Sum(Shares(t.primary, from), t.primary.Keys)
  {
    UserTotalsAdd(t, from, users);
    HostTotalsAdd(t, from, hosts);
  }

  // ---------- the counters ----------

  function Reasons(a: Acct): int {
    a.succ + a.user + a.susp + a.disc + a.self + a.perf + a.s_r + a.err + a.kill
  }

  /** The records a report counts but no reason counter does. */
  function Unnamed(primary: map<Key, Data>, keys: set<Key>, from: int): set<Key>
    requires keys <= primary.Keys
  {
    set k | k in keys && k.startTime >= from && primary[k].reason == LIMIT
  }

  function Counted(keys: set<Key>, from: int): set<Key> {
    set k | k in keys && k.startTime >= from
  }

  lemma CountersAdd(a: Acct, b: Acct)
    ensures Plus(a, b).tot == a.tot + b.tot && Reasons(Plus(a, b)) == Reasons(a) + Reasons(b)
  {
  }

  /** A record from before the given time counts nowhere, one without a named reason in `tot`. */
  predicate CountsOnce(share: Acct, k: Key, d: Data, from: int) {
    && share.tot == One(k.startTime >= from)
    && Reasons(share) == One(k.startTime >= from && d.reason != LIMIT)
  }

  lemma ShareCounts(k: Key, d: Data, from: int)
    ensures CountsOnce(Share(k, d, from), k, d, from)
  {
  }

  lemma CountsShrink(primary: map<Key, Data>, keys: set<Key>, from: int, k: Key)
    requires keys <= primary.Keys && k in keys
    ensures |Counted(keys, from)| == |Counted(keys - {k}, from)| + One(k.startTime >= from)
    ensures |Unnamed(primary, keys, from)|
         == |Unnamed(primary, keys - {k}, from)| + One(k.startTime >= from && primary[k].reason == LIMIT)
  {
    assert Counted(keys - {k}, from) == Counted(keys, from) - {k};
    assert Unnamed(primary, keys - {k}, from) == Unnamed(primary, keys, from) - {k};
  }

  /** What `tot` and the nine reason counters count. */
  ghost predicate Counts(primary: map<Key, Data>, keys: set<Key>, from: int, sum: Acct)
    requires keys <= primary.Keys
  {
    && sum.tot == |Counted(keys, from)|
    && Reasons(sum) == |Counted(keys, from)| - |Unnamed(primary, keys, from)|
  }

  lemma CountsMore(primary: map<Key, Data>, keys: set<Key>, from: int, k: Key, share: Acct, rest: Acct)
    requires keys <= primary.Keys && k in keys && Counts(primary, keys - {k}, from, rest)
    requires CountsOnce(share, k, primary[k], from)
    ensures Counts(primary, keys, from, Plus(share, rest))
  {
    CountersAdd(share, rest);
    CountsShrink(primary, keys, from, k);
  }

  lemma {:induction false} SumsCount(shares: map<Key, Acct>, primary: map<Key, Data>, keys: set<Key>, from: int)
    requires keys <= primary.Keys && keys <= shares.Keys
    requires forall k :: k in keys ==> CountsOnce(shares[k], k, primary[k], from)
    ensures Counts(primary, keys, from, Sum(shares, keys))
    decreases keys
  {
    if keys == {} {
      assert Counted(keys, from) == {} && Unnamed(primary, keys, from) == {};
    } else {
      var k :| k in keys;
      SumsCount(shares, primary, keys - {k}, from);
      SumPick(shares, keys, k);
      CountsMore(primary, keys, from, k, shares[k], Sum(shares, keys - {k}));
    }
  }

  lemma SharesCount(primary: map<Key, Data>, from: int)
    ensures forall k :: k in primary ==> k in Shares(primary, from) && CountsOnce(Shares(primary, from)[k], k, primary[k], from)
  {
    forall k | k in primary
      ensures CountsOnce(Shares(primary, from)[k], k, primary[k], from)
    {
      ShareCounts(k, primary[k], from);
    }
  }

  /** `tot` counts the records from the given time on; the nine reason counters miss exactly
      those whose reason is not a named one. */
  lemma TotalsCount(primary: map<Key, Data>, keys: set<Key>, from: int)
    requires keys <= primary.Keys
    ensures Sum(Shares(primary, from), keys).tot == |Counted(keys, from)|
    ensures Reasons(Sum(Shares(primary, from), keys)) == |Counted(keys, from)| - |Unnamed(primary, keys, from)|
  {
    SharesCount(primary, from);
    SumsCount(Shares(primary, from), primary, keys, from);
  }

  lemma UnnamedEmpty(primary: map<Key, Data>, keys: set<Key>, from: int)
    requires keys <= primary.Keys
    ensures |Unnamed(primary, keys, from)| == 0 <==>
            forall k :: k in keys && k.startTime >= from ==> primary[k].reason != LIMIT
  {
    var unnamed := Unnamed(primary, keys, from);
    if k :| k in keys && k.startTime >= from && primary[k].reason == LIMIT {
      assert k in unnamed;
    } else {
      assert unnamed == {};
    }
  }

  /** So a report's total equals the sum of its nine counters if and only if every record it
      counts has a named reason. */
  lemma TotalIsSumExactly(primary: map<Key, Data>, keys: set<Key>, from: int)
    requires keys <= primary.Keys
    ensures Sum(Shares(primary, from), keys).tot == Reasons(Sum(Shares(primary, from), keys)) <==>
            forall k :: k in keys && k.startTime >= from ==> primary[k].reason != LIMIT
  {
    TotalsCount(primary, keys, from);
    UnnamedEmpty(primary, keys, from);
  }
}
