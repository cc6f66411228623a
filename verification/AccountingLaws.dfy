/** What the numbers of a report mean, record by record: each of the nine counters is the number
of counted records with the reason it is named for, and each time is added up from the entries
of the `stats` that belong to it.  The entries are named here by their positions
(gridway-5.8/include/gw_history.h:32-54), and nothing here is stated by the functions that
`Accounting` adds up.
 */
module AccountingLaws {
  import opened Accounting

  // ---------- adding up one field ----------

  /** The amounts of a set of keys, added up in any order. */
  ghost function Added(amounts: map<Key, int>, keys: set<Key>): int
    requires keys <= amounts.Keys
  {
    if keys == {} then 0
    else
      var k :| k in keys;
      amounts[k] + Added(amounts, keys - {k})
  }

  lemma {:induction false} AddedPick(amounts: map<Key, int>, keys: set<Key>, k: Key)
    requires keys <= amounts.Keys && k in keys
    ensures Added(amounts, keys) == amounts[k] + Added(amounts, keys - {k})
    decreases keys
  {
    var first :| first in keys && Added(amounts, keys) == amounts[first] + Added(amounts, keys - {first});
    if first != k {
      AddedPick(amounts, keys - {first}, k);
      AddedPick(amounts, keys - {k}, first);
      assert keys - {first} - {k} == keys - {k} - {first};
    }
  }

  /** As many ones as there are keys. */
  lemma {:induction false} AddedOnes(amounts: map<Key, int>, keys: set<Key>)
    requires keys <= amounts.Keys && forall k :: k in keys ==> amounts[k] == 1
    ensures Added(amounts, keys) == |keys|
    decreases keys
  {
    if keys != {} {
      var k :| k in keys;
      AddedPick(amounts, keys, k);
      AddedOnes(amounts, keys - {k});
    }
  }

  /** The amounts of a sum of two readings. */
  lemma {:induction false} AddedPairs(both: map<Key, int>, one: map<Key, int>, two: map<Key, int>, keys: set<Key>)
    requires keys <= both.Keys && keys <= one.Keys && keys <= two.Keys
    requires forall k :: k in keys ==> both[k] == one[k] + two[k]
    ensures Added(both, keys) == Added(one, keys) + Added(two, keys)
    decreases keys
  {
    if keys != {} {
      var k :| k in keys;
      AddedPick(both, keys, k);
      AddedPick(one, keys, k);
      AddedPick(two, keys, k);
      AddedPairs(both, one, two, keys - {k});
    }
  }

  ghost predicate Additive(field: Acct -> int) {
    && field(ZERO) == 0
    && forall a, b :: field(Plus(a, b)) == field(a) + field(b)
  }

  /** A field of a sum of shares is what the records in `part` add to it, when the others add
      nothing. */
  lemma {:induction false} FieldAdds(field: Acct -> int, shares: map<Key, Acct>, keys: set<Key>, part: set<Key>,
                                     amounts: map<Key, int>)
    requires Additive(field) && part <= keys <= shares.Keys && part <= amounts.Keys
    requires forall k :: k in keys ==> field(shares[k]) == if k in part then amounts[k] else 0
    ensures field(Sum(shares, keys)) == Added(amounts, part)
    decreases keys
  {
    if keys == {} {
      assert part == {};
    } else {
      var k :| k in keys;
      SumPick(shares, keys, k);
      FieldAdds(field, shares, keys - {k}, part - {k}, amounts);
      if k in part {
        AddedPick(amounts, part, k);
      } else {
        assert part - {k} == part;
      }
    }
  }

  // ---------- the counters ----------

  /** The records a report from time `from` counts that ended for this reason. */
  function EndedFor(primary: map<Key, Data>, keys: set<Key>, from: int, r: Reason): set<Key>
    requires keys <= primary.Keys
  {
    set k | k in keys && from <= k.startTime && primary[k].reason == r
  }

  ghost predicate ReasonsCounted(primary: map<Key, Data>, keys: set<Key>, from: int, a: Acct)
    requires keys <= primary.Keys
  {
    && a.succ == |EndedFor(primary, keys, from, NONE)|
    && a.err == |EndedFor(primary, keys, from, EXECUTION_ERROR)|
    && a.susp == |EndedFor(primary, keys, from, SUSPENSION)|
    && a.disc == |EndedFor(primary, keys, from, RESCHEDULING_TIMEOUT)|
    && a.user == |EndedFor(primary, keys, from, USER_REQUESTED)|
    && a.self == |EndedFor(primary, keys, from, SELF_MIGRATION)|
    && a.perf == |EndedFor(primary, keys, from, PERFORMANCE)|
    && a.s_r == |EndedFor(primary, keys, from, STOP_RESUME)|
    && a.kill == |EndedFor(primary, keys, from, KILL)|
  }

  /** The counter the report shows for a reason; none for the last one. */
  function Shown(r: Reason): Acct -> int {
    match r
    case NONE => (a: Acct) => a.succ
    case EXECUTION_ERROR => (a: Acct) => a.err
    case SUSPENSION => (a: Acct) => a.susp
    case RESCHEDULING_TIMEOUT => (a: Acct) => a.disc
    case USER_REQUESTED => (a: Acct) => a.user
    case SELF_MIGRATION => (a: Acct) => a.self
    case PERFORMANCE => (a: Acct) => a.perf
    case STOP_RESUME => (a: Acct) => a.s_r
    case KILL => (a: Acct) => a.kill
    case LIMIT => (a: Acct) => 0
  }

  lemma ShownOnce(k: Key, d: Data, from: int, r: Reason)
    ensures Shown(r)(Share(k, d, from)) == if from <= k.startTime && d.reason == r != LIMIT then 1 else 0
  {
  }

  lemma ReasonCounted(primary: map<Key, Data>, keys: set<Key>, from: int, r: Reason)
    requires keys <= primary.Keys && r != LIMIT
    ensures Shown(r)(Sum(Shares(primary, from), keys)) == |EndedFor(primary, keys, from, r)|
  {
    var shares, part := Shares(primary, from), EndedFor(primary, keys, from, r);
    var ones := map k | k in keys :: 1;
    forall k | k in keys
      ensures Shown(r)(shares[k]) == if k in part then ones[k] else 0
    {
      ShownOnce(k, primary[k], from, r);
    }
    FieldAdds(Shown(r), shares, keys, part, ones);
    AddedOnes(ones, part);
  }

  /** Each counter of a report is the number of records with its reason. */
  lemma EachReasonCounted(primary: map<Key, Data>, keys: set<Key>, from: int)
    requires keys <= primary.Keys
    ensures ReasonsCounted(primary, keys, from, Sum(Shares(primary, from), keys))
  {
    ReasonCounted(primary, keys, from, NONE);
    ReasonCounted(primary, keys, from, EXECUTION_ERROR);
    ReasonCounted(primary, keys, from, SUSPENSION);
    ReasonCounted(primary, keys, from, RESCHEDULING_TIMEOUT);
    ReasonCounted(primary, keys, from, USER_REQUESTED);
    ReasonCounted(primary, keys, from, SELF_MIGRATION);
    ReasonCounted(primary, keys, from, PERFORMANCE);
    ReasonCounted(primary, keys, from, STOP_RESUME);
    ReasonCounted(primary, keys, from, KILL);
  }

  // ---------- the times ----------

  /** `length` is the time from `start` to `end`, or to `exit` where no end was noted; nothing
      where no start was noted or neither end is known. */
  predicate Lasts(start: int, end: int, exit: int, length: int) {
    && (start != 0 && end != 0 ==> start + length == end)
    && (start != 0 && end == 0 && exit != 0 ==> start + length == exit)
    && (start == 0 || (end == 0 && exit == 0) ==> length == 0)
  }

  /** The entry `i` of the stats of every record. */
  function Entry(primary: map<Key, Data>, i: nat): map<Key, int>
    requires i < 16
  {
    map k | k in primary :: primary[k].stats[i]
  }

  /** How long the phase from entry `start` to entry `end` took in every record. */
  ghost predicate Lengths(primary: map<Key, Data>, start: nat, end: nat, lengths: map<Key, int>)
    requires start < 16 && end < 16
  {
    && lengths.Keys == primary.Keys
    && forall k :: k in primary ==>
         Lasts(primary[k].stats[start], primary[k].stats[end], primary[k].stats[1], lengths[k])
  }

  /** The execution, suspension and transfer times: of the counted records, what is at their
      entries 4 and 2, and the lengths of their prologs (6 to 7) and epilogs (12 to 13). */
  ghost predicate TimesAdded(primary: map<Key, Data>, keys: set<Key>, from: int, a: Acct)
    requires keys <= primary.Keys
  {
    var counted := Counted(keys, from);
    && a.execution == Added(Entry(primary, 4), counted)
    && a.suspension == Added(Entry(primary, 2), counted)
    && exists prologs, epilogs :: Lengths(primary, 6, 7, prologs) && Lengths(primary, 12, 13, epilogs)
                               && a.transfer == Added(prologs, counted) + Added(epilogs, counted)
  }

  lemma OfTheCounted(primary: map<Key, Data>, keys: set<Key>, from: int, field: Acct -> int, amounts: map<Key, int>)
    requires keys <= primary.Keys == amounts.Keys && Additive(field)
    requires forall k :: k in keys ==>
      field(Share(k, primary[k], from)) == if from <= k.startTime then amounts[k] else 0
    ensures field(Sum(Shares(primary, from), keys)) == Added(amounts, Counted(keys, from))
  {
    FieldAdds(field, Shares(primary, from), keys, Counted(keys, from), amounts);
  }

  lemma ExecutionAdded(primary: map<Key, Data>, keys: set<Key>, from: int)
    requires keys <= primary.Keys
    ensures Sum(Shares(primary, from), keys).execution == Added(Entry(primary, 4), Counted(keys, from))
    ensures Sum(Shares(primary, from), keys).suspension == Added(Entry(primary, 2), Counted(keys, from))
  {
    OfTheCounted(primary, keys, from, (a: Acct) => a.execution, Entry(primary, 4));
    OfTheCounted(primary, keys, from, (a: Acct) => a.suspension, Entry(primary, 2));
  }

  lemma TransferOf(k: Key, d: Data, from: int, prolog: int, epilog: int)
    requires Lasts(d.stats[6], d.stats[7], d.stats[1], prolog) && Lasts(d.stats[12], d.stats[13], d.stats[1], epilog)
    ensures Share(k, d, from).transfer == if from <= k.startTime then prolog + epilog else 0
  {
  }

  /** `transfer` adds up the prologs and the epilogs, whatever way their lengths are found. */
  lemma TransferAdded(primary: map<Key, Data>, keys: set<Key>, from: int, prologs: map<Key, int>, epilogs: map<Key, int>)
    requires keys <= primary.Keys && Lengths(primary, 6, 7, prologs) && Lengths(primary, 12, 13, epilogs)
    ensures Sum(Shares(primary, from), keys).transfer
         == Added(prologs, Counted(keys, from)) + Added(epilogs, Counted(keys, from))
  {
    var both := map k | k in primary :: prologs[k] + epilogs[k];
    forall k | k in keys
      ensures Share(k, primary[k], from).transfer == if from <= k.startTime then both[k] else 0
    {
      TransferOf(k, primary[k], from, prologs[k], epilogs[k]);
    }
    OfTheCounted(primary, keys, from, (a: Acct) => a.transfer, both);
    AddedPairs(both, prologs, epilogs, Counted(keys, from));
  }

  lemma LengthsExist(primary: map<Key, Data>, start: nat, end: nat) returns (lengths: map<Key, int>)
    requires start < 16 && end < 16
    ensures Lengths(primary, start, end, lengths)
  {
    lengths := map k | k in primary ::
      var s := primary[k].stats;
      if s[start] == 0 || (s[end] == 0 && s[1] == 0) then 0
      else if s[end] == 0 then s[1] - s[start]
      else s[end] - s[start];
  }

  lemma EachTimeAdded(primary: map<Key, Data>, keys: set<Key>, from: int)
    requires keys <= primary.Keys
    ensures TimesAdded(primary, keys, from, Sum(Shares(primary, from), keys))
  {
    ExecutionAdded(primary, keys, from);
    var prologs := LengthsExist(primary, 6, 7);
    var epilogs := LengthsExist(primary, 12, 13);
    TransferAdded(primary, keys, from, prologs, epilogs);
  }

  /** Everything a report says of a set of records: how many it counts, why they ended and how
      long they took. */
  ghost predicate Reported(primary: map<Key, Data>, keys: set<Key>, from: int, a: Acct)
    requires keys <= primary.Keys
  {
    && a.tot == |Counted(keys, from)|
    && ReasonsCounted(primary, keys, from, a)
    && TimesAdded(primary, keys, from, a)
  }

  lemma SumReports(primary: map<Key, Data>, keys: set<Key>, from: int)
    requires keys <= primary.Keys
    ensures Reported(primary, keys, from, Sum(Shares(primary, from), keys))
  {
    TotalsCount(primary, keys, from);
    EachReasonCounted(primary, keys, from);
    EachTimeAdded(primary, keys, from);
  }

  // ---------- the records written ----------

  /** `d` tells of step `i` of the job's history, and of the job's owner. */
  ghost predicate TellsOf(d: Data, job: GwJob, i: nat)
    requires i < |job.history|
  {
    var r := job.history[i];
    && d.username == job.owner && d.hostname == r.hostname
    && d.rank == r.rank && d.reason == r.reason
    && forall e :: 0 <= e < 16 ==> d.stats[e] == r.stats[e]
  }

  /** After a job is written every step of its history is stored under the job's start time,
      its number and the step's place, and is found under its owner and its host; where no
      record stood before, it is the one of that step. */
  lemma EveryStepIsStored(t: Tables, job: GwJob, i: nat)
    requires Consistent(t) && i < |job.history|
    ensures var w, k := Written(t, job, |job.history|), Key(job.startTime, job.id, i);
            && k in w.primary
            && (k in t.primary ==> w.primary[k] == t.primary[k])
            && (k !in t.primary ==>
                  && TellsOf(w.primary[k], job, i)
                  && job.owner in w.users && k in w.users[job.owner]
                  && job.history[i].hostname in w.hosts && k in w.hosts[job.history[i].hostname])
  {
    var k := Key(job.startTime, job.id, i);
    WritesHistory(t, job, |job.history|, k);
    WriteKeeps(t, job, |job.history|);
    var w := Written(t, job, |job.history|);
    if k !in t.primary {
      assert UserOf(w.primary[k]) == job.owner && HostOf(w.primary[k]) == job.history[i].hostname;
    }
  }
}
