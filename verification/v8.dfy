/** The drafts `v8.py` and `v7.py`, which share `Sessions`: records grouped
    by user, each user's records split by url and tab, each split sorted.
    `v8.py` then averages the download times of each split. */
module V8 {
  import opened Seqs
  import opened Order
  import opened Sorting
  import opened ODict
  import opened Logs
  import V6

  /** A `{userid: logs}` entry of `sorted_lst`. */
  datatype Entry = Entry(userid: string, logs: seq<Log>)

  /** Sort key `(url, tabid, timestamp)` of `set_sorted_lst`. */
  function UrlTabTimeKey(l: Log): seq<Atom>
  {
    [Str(l.url), Int(l.tabid), Int(l.timestamp)]
  }

  /** The entries `set_sorted_lst` appends for one user. */
  function UserEntries(userid: string, logs: seq<Log>): seq<Entry>
  {
    var g := GroupBy(logs, V6.UrlTab);
    seq(|g|, j requires 0 <= j < |g| => Entry(userid, SortByKey(g[j].1, UrlTabTimeKey)))
  }

  /** `e` is the entry of `userid` for the (url, tab) pair `k`: exactly the
      records of `logs` on that pair, in time order. */
  predicate GroupEntry(logs: seq<Log>, userid: string, k: (string, int), e: Entry)
  {
    e.userid == userid && 0 < |e.logs| &&
    multiset(e.logs) == multiset(FilterKey(logs, V6.UrlTab, k)) &&
    TimeOrdered(e.logs)
  }

  /** A user gets one entry per distinct (url, tab) pair of its records, in
      order of first appearance, each holding exactly that pair's records
      in time order. */
  lemma UserEntriesSpec(userid: string, logs: seq<Log>)
    ensures var r := UserEntries(userid, logs);
      |r| == |Dedup(Project(logs, V6.UrlTab))| &&
      forall j :: 0 <= j < |r| ==> GroupEntry(logs, userid, Dedup(Project(logs, V6.UrlTab))[j], r[j])
  {
    var g := GroupBy(logs, V6.UrlTab);
    var ks := Dedup(Project(logs, V6.UrlTab));
    GroupBySpec(logs, V6.UrlTab);
    assert |g| == |ks|;
    forall j | 0 <= j < |g|
      ensures GroupEntry(logs, userid, ks[j], UserEntries(userid, logs)[j])
    {
      assert Keys(g)[j] == ks[j];
      GroupAt(logs, V6.UrlTab, j);
      EntryOfGroup(logs, userid, ks[j]);
    }
  }

  lemma EntryOfGroup(logs: seq<Log>, userid: string, k: (string, int))
    requires 0 < |FilterKey(logs, V6.UrlTab, k)|
    ensures GroupEntry(logs, userid, k, Entry(userid, SortByKey(FilterKey(logs, V6.UrlTab, k), UrlTabTimeKey)))
  {
    var f := FilterKey(logs, V6.UrlTab, k);
    var r := SortByKey(f, UrlTabTimeKey);
    FilterKeyMembers(logs, V6.UrlTab, k);
    forall i | 0 <= i < |r| ensures V6.UrlTab(r[i]) == V6.UrlTab(r[0]) {
      assert r[i] in multiset(f) && r[0] in multiset(f);
    }
    UrlTabTimeSorted(r);
  }

  /** The entries for the users of `byUser`, user by user. */
  function EntriesOf(byUser: Dict<string, seq<Log>>): seq<Entry>
  {
    if |byUser| == 0 then []
    else
      var n := |byUser| - 1;
      EntriesOf(byUser[..n]) + UserEntries(byUser[n].0, byUser[n].1)
  }

  /** `set_sorted_lst` after `set_unique_userids`. */
  function SortedLst(logs: seq<Log>): seq<Entry>
  {
    EntriesOf(V6.UniqueUserids(logs))
  }

  function EntryLogs(es: seq<Entry>): (r: seq<seq<Log>>)
    ensures |r| == |es|
    ensures forall i :: 0 <= i < |es| ==> r[i] == es[i].logs
  {
    seq(|es|, i requires 0 <= i < |es| => es[i].logs)
  }

  /** The records of all entries, entry by entry. */
  function AllEntryLogs(es: seq<Entry>): seq<Log>
  {
    Flatten(EntryLogs(es))
  }

  lemma AllEntryLogsAppend(a: seq<Entry>, b: seq<Entry>)
    ensures AllEntryLogs(a + b) == AllEntryLogs(a) + AllEntryLogs(b)
  {
    assert EntryLogs(a + b) == EntryLogs(a) + EntryLogs(b);
    FlattenAppend(EntryLogs(a), EntryLogs(b));
  }

  /** One user's entries hold that user's records, rearranged. */
  lemma UserEntriesPermutation(userid: string, logs: seq<Log>)
    ensures multiset(AllEntryLogs(UserEntries(userid, logs))) == multiset(logs)
  {
    var g := GroupBy(logs, V6.UrlTab);
    FlattenPermuteInner(EntryLogs(UserEntries(userid, logs)), Values(g));
    GroupByPermutation(logs, V6.UrlTab);
  }

  lemma {:induction false} EntriesOfPermutation(byUser: Dict<string, seq<Log>>)
    ensures multiset(AllEntryLogs(EntriesOf(byUser))) == multiset(Flatten(Values(byUser)))
    decreases |byUser|
  {
    if 0 < |byUser| {
      var n := |byUser| - 1;
      EntriesOfPermutation(byUser[..n]);
      AllEntryLogsAppend(EntriesOf(byUser[..n]), UserEntries(byUser[n].0, byUser[n].1));
      UserEntriesPermutation(byUser[n].0, byUser[n].1);
      assert Values(byUser)[..n] == Values(byUser[..n]);
    }
  }

  /** The entries together hold every record exactly once. */
  lemma SortedLstPermutation(logs: seq<Log>)
    ensures multiset(AllEntryLogs(SortedLst(logs))) == multiset(logs)
  {
    EntriesOfPermutation(V6.UniqueUserids(logs));
    GroupByPermutation(logs, UserOf);
  }

  /** An entry of one user, sharing one url and tab, in time order. */
  predicate EntryOk(e: Entry, logs: seq<Log>)
  {
    0 < |e.logs| &&
    (forall i :: 0 <= i < |e.logs| ==>
       e.logs[i] in logs && e.logs[i].userid == e.userid &&
       e.logs[i].url == e.logs[0].url && e.logs[i].tabid == e.logs[0].tabid) &&
    TimeOrdered(e.logs)
  }

  /** Sorted by url, tab and timestamp with url and tab fixed is sorted by
      timestamp. */
  lemma UrlTabTimeSorted(logs: seq<Log>)
    requires SortedByKey(logs, UrlTabTimeKey)
    requires forall i :: 0 <= i < |logs| ==> V6.UrlTab(logs[i]) == V6.UrlTab(logs[0])
    ensures TimeOrdered(logs)
  {
    forall i, j | 0 <= i < j < |logs| ensures logs[i].timestamp <= logs[j].timestamp {
      var p := [Str(logs[0].url), Int(logs[0].tabid)];
      assert UrlTabTimeKey(logs[i]) == p + [Int(logs[i].timestamp)];
      assert UrlTabTimeKey(logs[j]) == p + [Int(logs[j].timestamp)];
      KeyLeCommonPrefix(p, [Int(logs[i].timestamp)], [Int(logs[j].timestamp)]);
      IntKey1Le(logs[i].timestamp, logs[j].timestamp);
    }
  }

  /** Each entry made for a user from that user's records is well formed. */
  lemma UserEntriesOk(userid: string, ulogs: seq<Log>, logs: seq<Log>)
    requires forall i :: 0 <= i < |ulogs| ==> ulogs[i] in logs && ulogs[i].userid == userid
    ensures forall e | e in UserEntries(userid, ulogs) :: EntryOk(e, logs)
  {
    var r := UserEntries(userid, ulogs);
    var ks := Dedup(Project(ulogs, V6.UrlTab));
    UserEntriesSpec(userid, ulogs);
    forall e | e in r ensures EntryOk(e, logs) {
      var j :| 0 <= j < |r| && r[j] == e;
      GroupEntryOk(userid, ulogs, logs, ks[j], e);
    }
  }

  lemma GroupEntryOk(userid: string, ulogs: seq<Log>, logs: seq<Log>, k: (string, int), e: Entry)
    requires forall i :: 0 <= i < |ulogs| ==> ulogs[i] in logs && ulogs[i].userid == userid
    requires GroupEntry(ulogs, userid, k, e)
    ensures EntryOk(e, logs)
  {
    FilterKeyMembers(ulogs, V6.UrlTab, k);
    forall i | 0 <= i < |e.logs|
      ensures e.logs[i] in logs && e.logs[i].userid == userid && V6.UrlTab(e.logs[i]) == k
    {
      assert e.logs[i] in multiset(FilterKey(ulogs, V6.UrlTab, k));
      var m :| 0 <= m < |ulogs| && ulogs[m] == e.logs[i];
    }
  }

  lemma {:induction false} EntriesOfOk(byUser: Dict<string, seq<Log>>, logs: seq<Log>)
    requires forall u, i :: 0 <= u < |byUser| && 0 <= i < |byUser[u].1| ==>
      byUser[u].1[i] in logs && byUser[u].1[i].userid == byUser[u].0
    ensures forall e | e in EntriesOf(byUser) :: EntryOk(e, logs)
    decreases |byUser|
  {
    if 0 < |byUser| {
      var n := |byUser| - 1;
      EntriesOfOk(byUser[..n], logs);
      UserEntriesOk(byUser[n].0, byUser[n].1, logs);
    }
  }

  /** Every entry of `sorted_lst` is non-empty, holds records of its user
      only, all with one url and tab, ordered by timestamp; together the
      entries hold every record exactly once. */
  lemma SortedLstSpec(logs: seq<Log>)
    ensures forall e | e in SortedLst(logs) :: EntryOk(e, logs)
    ensures multiset(AllEntryLogs(SortedLst(logs))) == multiset(logs)
  {
    var u := V6.UniqueUserids(logs);
    forall k, i | 0 <= k < |u| && 0 <= i < |u[k].1| ensures u[k].1[i] in logs && u[k].1[i].userid == u[k].0 {
      GroupAt(logs, UserOf, k);
      FilterKeyMembers(logs, UserOf, u[k].0);
      assert u[k].1[i] in u[k].1;
    }
    EntriesOfOk(u, logs);
    SortedLstPermutation(logs);
  }

  /** The download times of one entry: `ts[i + 1] - ts[i]` at each Started
      record directly followed by a Finished record. */
  function PairTimes(logs: seq<Log>): (ts: seq<int>)
    ensures |ts| == |PairIndices(logs)|
    ensures forall k :: 0 <= k < |ts| ==>
      ts[k] == logs[PairIndices(logs)[k] + 1].timestamp - logs[PairIndices(logs)[k]].timestamp
  {
    var idx := PairIndices(logs);
    seq(|idx|, k requires 0 <= k < |idx| => logs[idx[k] + 1].timestamp - logs[idx[k]].timestamp)
  }

  /** A line printed by `avg_url_dload_time`. */
  datatype Report = Report(userid: string, url: string, tabid: int, avg: real)

  /** An entry is reported when it has at least two records and at least
      one download time. */
  predicate Reported(e: Entry)
  {
    2 <= |e.logs| && 0 < |PairTimes(e.logs)|
  }

  function ReportOf(e: Entry): Report
    requires Reported(e)
  {
    var last := e.logs[|e.logs| - 1];
    Report(e.userid, last.url, last.tabid, Mean(PairTimes(e.logs)))
  }

  /** `avg_url_dload_time`: one report per reported entry, in order. */
  function AvgUrlDloadTime(es: seq<Entry>): seq<Report>
  {
    if |es| == 0 then []
    else
      var n := |es| - 1;
      AvgUrlDloadTime(es[..n]) + (if Reported(es[n]) then [ReportOf(es[n])] else [])
  }

  /** The two-record guard excludes nothing more: a download time needs two
      records, so an entry is reported exactly when it has a download time. */
  lemma ReportedIffPair(e: Entry)
    ensures Reported(e) <==> 0 < |PairIndices(e.logs)|
  {
    if 0 < |PairIndices(e.logs)| {
      assert IsPairAt(e.logs, PairIndices(e.logs)[0]);
    }
  }

  /** A report holds its entry's user and the sum of its download times
      over their number. */
  lemma ReportMean(e: Entry)
    requires Reported(e)
    ensures ReportOf(e).userid == e.userid
    ensures ReportOf(e).avg == Sum(PairTimes(e.logs)) as real / |PairTimes(e.logs)| as real
  {
  }

  /** `r` is the report of entry `e`, which has a download time. */
  predicate IsReportOf(e: Entry, r: Report)
  {
    Reported(e) && r == ReportOf(e)
  }

  /** The reports are those of the entries with a download time, in order,
      one per entry. */
  lemma {:induction false} AvgUrlDloadTimeSpec(es: seq<Entry>)
    ensures |AvgUrlDloadTime(es)| == |Filter(es, Reported)|
    ensures forall k :: 0 <= k < |AvgUrlDloadTime(es)| ==>
      IsReportOf(Filter(es, Reported)[k], AvgUrlDloadTime(es)[k])
    decreases |es|
  {
    if 0 < |es| {
      var n := |es| - 1;
      AvgUrlDloadTimeSpec(es[..n]);
      var keep := Reported(es[n]);
      var r := if keep then ReportOf(es[n]) else Report("", "", 0, 0.0);
      ZipStep(Filter(es[..n], Reported), AvgUrlDloadTime(es[..n]), es[n], keep, r, IsReportOf);
      assert Filter(es, Reported) == Filter(es[..n], Reported) + (if keep then [es[n]] else []);
      assert AvgUrlDloadTime(es) == AvgUrlDloadTime(es[..n]) + (if keep then [r] else []);
    }
  }
}
