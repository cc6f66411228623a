/** The accounting code as it is written: the row that is added up in place, the tables that
writing a job changes, and the report drivers with their loops, proved against the functions
of `Accounting`.
 */
module AccountingProcedures {
  import opened Accounting
  import opened AccountingLaws

  /** gw_acct_t. */
  class AcctRow {
    var transfer: int
    var execution: int
    var suspension: int
    var tot: int
    var succ: int
    var user: int
    var susp: int
    var disc: int
    var self: int
    var perf: int
    var s_r: int
    var err: int
    var kill: int

    ghost function View(): Acct
      reads this
    {
      Acct(transfer, execution, suspension, tot, succ, user, susp, disc, self, perf, s_r, err, kill)
    }

    /** The memset before the loop. */
    method Clear()
      modifies this
      ensures View() == ZERO
    {
      transfer, execution, suspension, tot := 0, 0, 0, 0;
      succ, user, susp, disc, self, perf, s_r, err, kill := 0, 0, 0, 0, 0, 0, 0, 0, 0;
    }

    /** Lines 549-566. */
    method CountTimes(s: Stats)
      modifies this
      ensures View() == Plus(old(View()), Times(s))
    {
      execution := execution + s[ACTIVE_TIME];
      var par := TotalTime(s[PROLOG_START_TIME], s[PROLOG_EXIT_TIME], s[EXIT_TIME]);
      transfer := transfer + par;
      par := TotalTime(s[EPILOG_START_TIME], s[EPILOG_EXIT_TIME], s[EXIT_TIME]);
      transfer := transfer + par;
      suspension := suspension + s[SUSPENSION_TIME];
      tot := tot + 1;
    }

    /** The switch at lines 568-608. */
    method CountReason(reason: Reason)
      modifies this
      ensures View() == Plus(old(View()), Counter(reason))
    {
      match reason
      case NONE => succ := succ + 1;
      case EXECUTION_ERROR => err := err + 1;
      case SUSPENSION => susp := susp + 1;
      case RESCHEDULING_TIMEOUT => disc := disc + 1;
      case USER_REQUESTED => user := user + 1;
      case SELF_MIGRATION => self := self + 1;
      case PERFORMANCE => perf := perf + 1;
      case STOP_RESUME => s_r := s_r + 1;
      case KILL => kill := kill + 1;
      case LIMIT =>
    }

    /** The body of the join's loop. */
    method Accumulate(k: Key, d: Data, from: int)
      modifies this
      ensures View() == Plus(old(View()), Share(k, d, from))
    {
      if k.startTime < from {
        PlusSwaps(View(), ZERO, ZERO);
        return;
      }
      PlusSwaps(View(), Times(d.stats), Counter(d.reason));
      CountTimes(d.stats);
      CountReason(d.reason);
    }

    method Taken() returns (a: Acct)
      ensures a == View()
    {
      a := Acct(transfer, execution, suspension, tot, succ, user, susp, disc, self, perf, s_r, err, kill);
    }
  }

  /** gw_acct_db: the primary store and its two associated indexes. */
  class AcctDb {
    var primary: map<Key, Data>
    var users: map<string, set<Key>>
    var hosts: map<string, set<Key>>

    ghost function View(): Tables
      reads this
    {
      Tables(primary, users, hosts)
    }

    ghost predicate Valid()
      reads this
    {
      Consistent(View())
    }

    constructor ()
      ensures Valid() && View() == Tables(map[], map[], map[])
    {
      primary, users, hosts := map[], map[], map[];
    }

    /** gw_acct_db_write_record: a put with DB_NOOVERWRITE, and the two callbacks. */
    method WriteRecord(job: GwJob, i: nat)
      requires Valid() && i < |job.history|
      modifies this
      ensures Valid() && View() == Put(old(View()), KeyOf(job, i), DataOf(job, i))
    {
      PutKeeps(View(), KeyOf(job, i), DataOf(job, i));
      var k, d := KeyOf(job, i), DataOf(job, i);
      if k !in primary {
        primary := primary[k := d];
        users := AddToIndex(users, d.username, k);
        hosts := AddToIndex(hosts, d.hostname, k);
      }
    }

    /** gw_acct_write_job; a job without history writes nothing. */
    method WriteJob(job: GwJob)
      requires Valid()
      modifies this
      ensures Valid() && View() == Written(old(View()), job, |job.history|)
    {
      for i := 0 to |job.history|
        invariant Valid() && View() == Written(old(View()), job, i)
      {
        WriteRecord(job, i);
      }
    }

    /** gw_acct_join_search: refused when the host or the user is in no index; otherwise the row
        adds up exactly the records of that host and user. */
    method JoinSearch(hostname: string, username: string, row: AcctRow, from: int) returns (rc: int)
      requires Valid()
      modifies row
      ensures rc == if HasHost(primary, hostname) && HasUser(primary, username) then 0 else -1
      ensures rc == 0 ==> row.View() == Sum(Shares(primary, from), Scanned(primary, hostname, username))
      ensures rc == 0 ==> Reported(primary, Scanned(primary, hostname, username), from, row.View())
      ensures rc == -1 ==> row.View() == old(row.View())
    {
      JoinReports(View(), hostname, username, from);
      if hostname !in hosts {
        return -1;
      }
      if username !in users {
        return -1;
      }
      AddUp(hosts[hostname] * users[username], row, from);
      rc := 0;
    }

    /** The join's loop, lines 539-609, over the records the cursor gives in some order. */
    method AddUp(keys: set<Key>, row: AcctRow, from: int)
      requires keys <= primary.Keys
      modifies row
      ensures row.View() == Sum(Shares(primary, from), keys)
    {
      row.Clear();
      var rest := keys;
      ghost var shares := Shares(primary, from);
      PlusSwaps(Sum(shares, keys), ZERO, ZERO);
      while rest != {}
        invariant rest <= primary.Keys && Plus(row.View(), Sum(shares, rest)) == Sum(shares, keys)
        decreases rest
      {
        var k :| k in rest;
        SumPick(shares, rest, k);
        PlusSwaps(row.View(), shares[k], Sum(shares, rest - {k}));
        row.Accumulate(k, primary[k], from);
        rest := rest - {k};
      }
      PlusSwaps(row.View(), ZERO, ZERO);
    }

    /** The cursor loop that lists an index's names once each, in some order. */
    method Names(index: map<string, set<Key>>) returns (names: seq<string>)
      ensures ListsOnce(names, index.Keys)
    {
      names := [];
      var rest := index.Keys;
      while rest != {}
        invariant rest <= index.Keys
        invariant forall n :: n in names <==> n in index && n !in rest
        invariant forall i, k :: 0 <= i < k < |names| ==> names[i] != names[k]
        decreases rest
      {
        var n :| n in rest;
        names := names + [n];
        rest := rest - {n};
      }
    }

    /** The row for one host and user, as both drivers make it: lines 705-717 and 813-825. */
    method RowFor(hostname: string, username: string, name: string, from: int) returns (rows: seq<Row>)
      requires Valid()
      ensures rows == if HasHost(primary, hostname) && HasUser(primary, username)
                      then [Row(name, Sum(Shares(primary, from), Scanned(primary, hostname, username)))] else []
    {
      var tmp := new AcctRow;
      var rc := JoinSearch(hostname, username, tmp, from);
      if rc != 0 {
        return [];
      }
      var acct := tmp.Taken();
      rows := [Row(name, acct)];
    }

    /** The loop over the hosts: lines 703-718. */
    method HostRows(hostnames: seq<string>, username: string, from: int) returns (rows: seq<Row>)
      requires Valid() && forall n :: n in hostnames ==> HasHost(primary, n)
      ensures if HasUser(primary, username) then HostRowsAre(primary, hostnames, username, from, rows) else rows == []
    {
      ghost var p := primary;
      rows := [];
      for i := 0 to |hostnames|
        invariant if HasUser(p, username) then HostRowsAre(p, hostnames[..i], username, from, rows) else rows == []
      {
        assert hostnames[i] in hostnames && hostnames[..i + 1] == hostnames[..i] + [hostnames[i]];
        var row := RowFor(hostnames[i], username, hostnames[i], from);
        rows := rows + row;
      }
      assert hostnames[..|hostnames|] == hostnames;
    }

    /** The loop over the users: lines 811-826. */
    method UserRows(usernames: seq<string>, hostname: string, from: int) returns (rows: seq<Row>)
      requires Valid() && forall n :: n in usernames ==> HasUser(primary, n)
      ensures if HasHost(primary, hostname) then UserRowsAre(primary, usernames, hostname, from, rows) else rows == []
    {
      ghost var p := primary;
      rows := [];
      for i := 0 to |usernames|
        invariant if HasHost(p, hostname) then UserRowsAre(p, usernames[..i], hostname, from, rows) else rows == []
      {
        assert usernames[i] in usernames && usernames[..i + 1] == usernames[..i] + [usernames[i]];
        var row := RowFor(hostname, usernames[i], usernames[i], from);
        rows := rows + row;
      }
      assert usernames[..|usernames|] == usernames;
    }

    method HostRowsReported(hostnames: seq<string>, username: string, from: int) returns (rows: seq<Row>)
      requires Valid() && ListsOnce(hostnames, hosts.Keys)
      ensures if HasUser(primary, username) then UserReport(View(), username, from, rows) else rows == []
    {
      ghost var t := View();
      AllHosts(t);
      rows := HostRows(hostnames, username, from);
      if HasUser(t.primary, username) {
        HostRowsReport(t, hostnames, username, from, rows);
      }
    }

    method UserRowsReported(usernames: seq<string>, hostname: string, from: int) returns (rows: seq<Row>)
      requires Valid() && ListsOnce(usernames, users.Keys)
      ensures if HasHost(primary, hostname) then HostReport(View(), hostname, from, rows) else rows == []
    {
      ghost var t := View();
      AllUsers(t);
      rows := UserRows(usernames, hostname, from);
      if HasHost(t.primary, hostname) {
        UserRowsReport(t, usernames, hostname, from, rows);
      }
    }

    /** gw_acct_join_search_by_user: an empty store is an error, an unknown user has no rows, and
        any other user one row per host, even where he ran nothing. */
    method ByUser(username: string, from: int) returns (rc: int, rows: seq<Row>)
      requires Valid()
      ensures rc == if primary == map[] then -1 else 0
      ensures if HasUser(primary, username) then UserReport(View(), username, from, rows) else rows == []
    {
      EmptyStore(View());
      if hosts == map[] {
        return -1, [];
      }
      var hostnames := Names(hosts);
      rows := HostRowsReported(hostnames, username, from);
      rc := 0;
    }

    /** gw_acct_join_search_by_host. */
    method ByHost(hostname: string, from: int) returns (rc: int, rows: seq<Row>)
      requires Valid()
      ensures rc == if primary == map[] then -1 else 0
      ensures if HasHost(primary, hostname) then HostReport(View(), hostname, from, rows) else rows == []
    {
      EmptyStore(View());
      if users == map[] {
        return -1, [];
      }
      var usernames := Names(users);
      rows := UserRowsReported(usernames, hostname, from);
      rc := 0;
    }
  }

  /** What the join adds up is what is to be reported. */
  lemma JoinReports(t: Tables, h: string, u: string, from: int)
    requires Consistent(t)
    ensures h in t.hosts <==> HasHost(t.primary, h)
    ensures u in t.users <==> HasUser(t.primary, u)
    ensures h in t.hosts && u in t.users ==>
              && t.hosts[h] * t.users[u] == Scanned(t.primary, h, u)
              && Reported(t.primary, Scanned(t.primary, h, u), from, Sum(Shares(t.primary, from), Scanned(t.primary, h, u)))
  {
    JoinIsScan(t, h, u);
    SumReports(t.primary, Scanned(t.primary, h, u), from);
  }

  ghost predicate HostRowsAre(p: map<Key, Data>, names: seq<string>, u: string, from: int, rows: seq<Row>) {
    |rows| == |names| &&
    forall k :: 0 <= k < |rows| ==> rows[k] == Row(names[k], Sum(Shares(p, from), Scanned(p, names[k], u)))
  }

  ghost predicate UserRowsAre(p: map<Key, Data>, names: seq<string>, h: string, from: int, rows: seq<Row>) {
    |rows| == |names| &&
    forall k :: 0 <= k < |rows| ==> rows[k] == Row(names[k], Sum(Shares(p, from), Scanned(p, h, names[k])))
  }

  ghost predicate ListsOnce(names: seq<string>, all: set<string>) {
    && (forall i, k :: 0 <= i < k < |names| ==> names[i] != names[k])
    && (forall n :: n in names <==> n in all)
  }

  lemma OneEach(names: seq<string>, rows: seq<Row>, all: set<string>)
    requires ListsOnce(names, all) && |rows| == |names|
    requires forall k :: 0 <= k < |rows| ==> rows[k].name == names[k]
    ensures RowPerName(rows, all)
  {
    forall n | n in all
      ensures exists i :: 0 <= i < |rows| && rows[i].name == n
    {
      var i :| 0 <= i < |names| && names[i] == n;
      assert rows[i].name == n;
    }
    forall i | 0 <= i < |rows|
      ensures rows[i].name in all
    {
      assert names[i] in names;
    }
  }

  lemma HostRowsReport(t: Tables, names: seq<string>, u: string, from: int, rows: seq<Row>)
    requires Consistent(t) && ListsOnce(names, t.hosts.Keys) && HostRowsAre(t.primary, names, u, from, rows)
    ensures UserReport(t, u, from, rows)
  {
    OneEach(names, rows, t.hosts.Keys);
  }

  lemma UserRowsReport(t: Tables, names: seq<string>, h: string, from: int, rows: seq<Row>)
    requires Consistent(t) && ListsOnce(names, t.users.Keys) && UserRowsAre(t.primary, names, h, from, rows)
    ensures HostReport(t, h, from, rows)
  {
    OneEach(names, rows, t.users.Keys);
  }

  lemma AllHosts(t: Tables)
    requires Consistent(t)
    ensures forall n :: n in t.hosts ==> HasHost(t.primary, n)
  {
    forall n | n in t.hosts
      ensures HasHost(t.primary, n)
    {
      JoinIsScan(t, n, "");
    }
  }

  lemma AllUsers(t: Tables)
    requires Consistent(t)
    ensures forall n :: n in t.users ==> HasUser(t.primary, n)
  {
    forall n | n in t.users
      ensures HasUser(t.primary, n)
    {
      JoinIsScan(t, "", n);
    }
  }

  /** The indexes have no names exactly when the store is empty. */
  lemma EmptyStore(t: Tables)
    requires Consistent(t)
    ensures t.hosts == map[] <==> t.primary == map[]
    ensures t.users == map[] <==> t.primary == map[]
    ensures t.primary == map[] ==> forall n :: !HasHost(t.primary, n) && !HasUser(t.primary, n)
  {
    if t.primary != map[] {
      var k :| k in t.primary;
      assert UserOf(t.primary[k]) in t.users && HostOf(t.primary[k]) in t.hosts;
    }
    if t.hosts != map[] {
      var n :| n in t.hosts;
      var k :| k in t.hosts[n];
      assert k in t.primary;
    }
    if t.users != map[] {
      var n :| n in t.users;
      var k :| k in t.users[n];
      assert k in t.primary;
    }
  }
}
