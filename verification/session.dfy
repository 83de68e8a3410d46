/** `webtracker/session.py`: the records of one (user, url, tab) triple,
    and what is derived from them once all records are in. */
module SessionModel {
  import opened Wrappers
  import opened Order
  import opened Seqs
  import opened Sorting
  import opened ODict
  import opened Logs
  import opened DownloadModel

  /** A session while records are still being added. `fields` stands for
      the three attributes `userid`, `url`, `tabid`, which `add_log` always
      assigns together; `None` is their initial Python `None`. */
  datatype Building = Building(id: SessionKey, fields: Option<SessionKey>, logs: seq<Log>)

  /** `Session(session_id)`. */
  function NewSession(id: SessionKey): Building
  {
    Building(id, None, [])
  }

  /** `not self.userid`: None and the empty string are both falsy. */
  predicate Unnamed(b: Building)
  {
    b.fields.None? || b.fields.value.userid == ""
  }

  /** `add_log`. */
  function AddLog(b: Building, log: Log): Building
  {
    Building(b.id, if Unnamed(b) then Some(KeyOf(log)) else b.fields, b.logs + [log])
  }

  /** `add_log` applied to each of `logs` in turn, starting from `b`. */
  function AddAll(b: Building, logs: seq<Log>): Building
  {
    Fold(b, logs, AddLog)
  }

  /** Attributes are set as soon as there is a record. */
  predicate Valid(b: Building)
  {
    |b.logs| > 0 ==> b.fields.Some?
  }

  lemma AddLogValid(b: Building, log: Log)
    ensures Valid(AddLog(b, log))
    ensures AddLog(b, log).logs == b.logs + [log]
  {
  }

  /** The record whose attributes a session keeps: the first one with a
      non-empty userid, or the last one when every userid is empty. */
  function SettingIndex(logs: seq<Log>): (i: nat)
    requires 0 < |logs|
    ensures i < |logs|
    ensures forall j :: 0 <= j < i ==> logs[j].userid == ""
    ensures logs[i].userid != "" || i == |logs| - 1
  {
    if logs[0].userid != "" || |logs| == 1 then 0 else 1 + SettingIndex(logs[1..])
  }

  /** The three conditions of `SettingIndex` pin the index down. */
  lemma SettingIndexUnique(logs: seq<Log>, i: nat)
    requires i < |logs|
    requires forall j :: 0 <= j < i ==> logs[j].userid == ""
    requires logs[i].userid != "" || i == |logs| - 1
    ensures SettingIndex(logs) == i
  {
  }

  /** Feeding records to a fresh session keeps every record in order, and
      the attributes come from the record chosen by `SettingIndex`: later
      records only change them while the userid is still empty. */
  lemma {:induction false} AddAllFixesFields(id: SessionKey, logs: seq<Log>)
    ensures AddAll(NewSession(id), logs).id == id
    ensures AddAll(NewSession(id), logs).logs == logs
    ensures |logs| == 0 ==> AddAll(NewSession(id), logs).fields == None
    ensures 0 < |logs| ==> AddAll(NewSession(id), logs).fields == Some(KeyOf(logs[SettingIndex(logs)]))
    decreases |logs|
  {
    if |logs| > 0 {
      var n := |logs| - 1;
      var p := logs[..n];
      AddAllFixesFields(id, p);
      var b := AddAll(NewSession(id), p);
      assert AddAll(NewSession(id), logs) == AddLog(b, logs[n]);
      assert p + [logs[n]] == logs;
      if n == 0 {
        SettingIndexUnique(logs, 0);
      } else {
        var i := SettingIndex(p);
        if p[i].userid != "" {
          SettingIndexUnique(logs, i);
        } else {
          assert i == n - 1;
          SettingIndexUnique(logs, n);
        }
      }
    }
  }

  /** When every record carries the same key, as the grouping guarantees,
      the attributes are that key. */
  lemma SameKeyFields(id: SessionKey, logs: seq<Log>)
    requires 0 < |logs|
    requires forall i :: 0 <= i < |logs| ==> KeyOf(logs[i]) == id
    ensures AddAll(NewSession(id), logs).fields == Some(id)
  {
    AddAllFixesFields(id, logs);
  }

  /** A session once `sort_logs`, `get_downloads`, `get_avg_dload_time` and
      `get_duration` have run. */
  datatype Session = Session(
    id: SessionKey,
    userid: string,
    url: string,
    tabid: int,
    logs: seq<Log>,
    start: int,
    end: int,
    downloads: seq<Download>,
    avgDloadTime: Option<real>,
    duration: int)

  /** The sort of `sort_logs`. */
  function SortLogs(logs: seq<Log>): seq<Log>
  {
    SortByKey(logs, SessionTimeKey)
  }

  /** Within one session `sort_logs` yields the records in a stable
      timestamp order: the result is a permutation, non-decreasing in time,
      and records with equal timestamps keep their insertion order. */
  lemma SortLogsInSession(logs: seq<Log>, k: SessionKey)
    requires forall i :: 0 <= i < |logs| ==> KeyOf(logs[i]) == k
    ensures multiset(SortLogs(logs)) == multiset(logs)
    ensures TimeOrdered(SortLogs(logs))
    ensures SortLogs(logs) == SortByKey(logs, TimeKey)
  {
    var r := SortLogs(logs);
    forall i | 0 <= i < |r| ensures KeyOf(r[i]) == k {
      assert r[i] in multiset(logs);
    }
    SessionTimeKeySorted(r, k);
    TimeKeySorted(r);
    forall t ensures KeyClass(r, TimeKey, t) == KeyClass(logs, TimeKey, t) {
      SessionTimeClass(logs, k, t);
      SessionTimeClass(r, k, t);
      var s := SessionTimeKeyOf(k, t);
      assert KeyClass(r, SessionTimeKey, s) == KeyClass(logs, SessionTimeKey, s);
    }
    SortedPermutationIsSort(logs, r, TimeKey);
  }

  function SessionTimeKeyOf(k: SessionKey, t: seq<Atom>): seq<Atom>
  {
    [Str(k.userid), Str(k.url), Int(k.tabid)] + t
  }

  /** Inside one session the timestamp classes and the full-key classes
      coincide. */
  lemma {:induction false} SessionTimeClass(logs: seq<Log>, k: SessionKey, t: seq<Atom>)
    requires forall i :: 0 <= i < |logs| ==> KeyOf(logs[i]) == k
    ensures KeyClass(logs, TimeKey, t) == KeyClass(logs, SessionTimeKey, SessionTimeKeyOf(k, t))
    decreases |logs|
  {
    if |logs| > 0 {
      var n := |logs| - 1;
      SessionTimeClass(logs[..n], k, t);
      assert logs == logs[..n] + [logs[n]];
      KeyClassAppend(logs[..n], [logs[n]], TimeKey, t);
      KeyClassAppend(logs[..n], [logs[n]], SessionTimeKey, SessionTimeKeyOf(k, t));
      assert SessionTimeKey(logs[n]) == SessionTimeKeyOf(k, TimeKey(logs[n]));
      assert (SessionTimeKey(logs[n]) == SessionTimeKeyOf(k, t)) == (TimeKey(logs[n]) == t) by {
        if SessionTimeKey(logs[n]) == SessionTimeKeyOf(k, t) {
          assert SessionTimeKeyOf(k, t)[3..] == t;
          assert SessionTimeKey(logs[n])[3..] == TimeKey(logs[n]);
        }
      }
      KeyClassSingle(logs[n], TimeKey, t);
      KeyClassSingle(logs[n], SessionTimeKey, SessionTimeKeyOf(k, t));
    }
  }

  /** `get_downloads` over the sorted records: one download per position of
      `PairIndices`, from that record and the next. */
  function GetDownloads(url: string, id: SessionKey, logs: seq<Log>): (ds: seq<Download>)
    ensures |ds| == |PairIndices(logs)|
    ensures forall k :: 0 <= k < |ds| ==>
      ds[k] == Download(url, id, logs[PairIndices(logs)[k]], logs[PairIndices(logs)[k] + 1])
  {
    var idx := PairIndices(logs);
    seq(|idx|, k requires 0 <= k < |idx| => Download(url, id, logs[idx[k]], logs[idx[k] + 1]))
  }

  /** On time-ordered records every download opens with a Started record,
      closes with the Finished record right after it, has `start <= end`,
      and downloads come in ascending order of start; no record is shared
      by two downloads. */
  lemma DownloadsOfOrderedLogs(url: string, id: SessionKey, logs: seq<Log>)
    requires TimeOrdered(logs)
    ensures var ds := GetDownloads(url, id, logs);
      (forall k :: 0 <= k < |ds| ==>
         ds[k].startLog.status == STARTED && ds[k].endLog.status == FINISHED &&
         ds[k].start() <= ds[k].end()) &&
      (forall k, l :: 0 <= k < l < |ds| ==> ds[k].end() <= ds[l].start())
  {
    var ds := GetDownloads(url, id, logs);
    var idx := PairIndices(logs);
    PairsApart(logs);
    forall k, l | 0 <= k < l < |ds| ensures idx[k] + 1 < idx[l] {
    }
  }

  function DloadTimes(ds: seq<Download>): (ts: seq<int>)
    ensures |ts| == |ds|
    ensures forall k :: 0 <= k < |ds| ==> ts[k] == ds[k].end() - ds[k].start()
  {
    seq(|ds|, k requires 0 <= k < |ds| => ds[k].end() - ds[k].start())
  }

  /** `get_avg_dload_time`: stays `None` without downloads, otherwise the
      mean download time, never negative when each download ends after it
      starts. */
  function AvgDloadTime(ds: seq<Download>): (r: Option<real>)
    ensures r.None? <==> |ds| == 0
    ensures r.Some? ==> r.value * |ds| as real == Sum(DloadTimes(ds)) as real
    ensures r.Some? && (forall k :: 0 <= k < |ds| ==> ds[k].start() <= ds[k].end()) ==> 0.0 <= r.value
  {
    if |ds| == 0 then None
    else
      var ts := DloadTimes(ds);
      MeanNonNegativeIf(ts);
      MeanTimesCount(ts);
      Some(Mean(ts))
  }

  lemma MeanNonNegativeIf(xs: seq<int>)
    requires 0 < |xs|
    ensures (forall i :: 0 <= i < |xs| ==> 0 <= xs[i]) ==> 0.0 <= Mean(xs)
  {
    if forall i :: 0 <= i < |xs| ==> 0 <= xs[i] {
      MeanNonNegative(xs);
    }
  }

  /** `get_downloads`, `get_avg_dload_time` and `get_duration` on records
      already put in order by `sort_logs`. */
  function Derive(id: SessionKey, f: SessionKey, logs: seq<Log>): (s: Session)
    requires 0 < |logs|
    ensures s.logs == logs
  {
    var ds := GetDownloads(f.url, id, logs);
    var start := logs[0].timestamp;
    var end := logs[|logs| - 1].timestamp;
    Session(id, f.userid, f.url, f.tabid, logs, start, end, ds, AvgDloadTime(ds), end - start)
  }

  /** The four per-session steps. `sort_logs` reads `logs[0]`, so a session
      without records raises IndexError. */
  function Process(b: Building): (r: Fallible<Session>)
    requires Valid(b)
    ensures r.Raises? <==> |b.logs| == 0
    ensures r.Raises? ==> r.error == IndexError
    ensures r.Ok? ==> multiset(r.value.logs) == multiset(b.logs)
  {
    if |b.logs| == 0 then Raises(IndexError)
    else Ok(Derive(b.id, b.fields.value, SortLogs(b.logs)))
  }

  /** On time-ordered records every download lies between the first and the
      last record, and the average download time is `None` exactly when
      there is no download and is otherwise non-negative. */
  lemma DeriveDownloads(id: SessionKey, f: SessionKey, logs: seq<Log>)
    requires 0 < |logs| && TimeOrdered(logs)
    ensures var s := Derive(id, f, logs);
      forall k :: 0 <= k < |s.downloads| ==>
        s.start <= s.downloads[k].start() <= s.downloads[k].end() <= s.end
    ensures var s := Derive(id, f, logs);
      (s.avgDloadTime.None? <==> |s.downloads| == 0) &&
      (s.avgDloadTime.Some? ==> 0.0 <= s.avgDloadTime.value)
  {
    DownloadsWithin(f.url, id, logs);
  }

  /** The first and last of a time-ordered permutation bound every record
      and are timestamps of records. */
  lemma OrderedBounds(sorted: seq<Log>, logs: seq<Log>)
    requires 0 < |logs| && TimeOrdered(sorted) && multiset(sorted) == multiset(logs)
    ensures |sorted| == |logs|
    ensures forall i :: 0 <= i < |logs| ==> sorted[0].timestamp <= logs[i].timestamp <= sorted[|sorted| - 1].timestamp
    ensures sorted[0].timestamp in Project(logs, TimeOf)
    ensures sorted[|sorted| - 1].timestamp in Project(logs, TimeOf)
  {
    assert |sorted| == |multiset(sorted)| == |multiset(logs)| == |logs|;
    forall i | 0 <= i < |logs| ensures sorted[0].timestamp <= logs[i].timestamp <= sorted[|sorted| - 1].timestamp {
      assert logs[i] in multiset(sorted);
      var j :| 0 <= j < |sorted| && sorted[j] == logs[i];
    }
    assert sorted[0] in multiset(logs);
    assert sorted[|sorted| - 1] in multiset(logs);
    var a :| 0 <= a < |logs| && logs[a] == sorted[0];
    var z :| 0 <= z < |logs| && logs[z] == sorted[|sorted| - 1];
    assert Project(logs, TimeOf)[a] == sorted[0].timestamp;
    assert Project(logs, TimeOf)[z] == sorted[|sorted| - 1].timestamp;
  }

  /** Downloads of time-ordered records lie between the first and the last
      record. */
  lemma DownloadsWithin(url: string, id: SessionKey, sorted: seq<Log>)
    requires 0 < |sorted| && TimeOrdered(sorted)
    ensures forall k :: 0 <= k < |GetDownloads(url, id, sorted)| ==>
      sorted[0].timestamp <= GetDownloads(url, id, sorted)[k].start() <= GetDownloads(url, id, sorted)[k].end() <= sorted[|sorted| - 1].timestamp
  {
    var ds := GetDownloads(url, id, sorted);
    forall k | 0 <= k < |ds|
      ensures sorted[0].timestamp <= ds[k].start() <= ds[k].end() <= sorted[|sorted| - 1].timestamp
    {
      var i := PairIndices(sorted)[k];
      assert IsPairAt(sorted, i);
      NeighboursWithin(sorted, i);
      assert ds[k].startLog == sorted[i] && ds[k].endLog == sorted[i + 1];
    }
  }

  /** In time-ordered records two neighbours lie between the first and the
      last record. */
  lemma NeighboursWithin(sorted: seq<Log>, i: nat)
    requires i + 1 < |sorted| && TimeOrdered(sorted)
    ensures sorted[0].timestamp <= sorted[i].timestamp <= sorted[i + 1].timestamp <= sorted[|sorted| - 1].timestamp
  {
  }

  /** For a session built from records of one key the attributes are that
      key's, and the records come out time-ordered. */
  lemma ProcessSession(id: SessionKey, logs: seq<Log>)
    requires 0 < |logs|
    requires forall i :: 0 <= i < |logs| ==> KeyOf(logs[i]) == id
    ensures Valid(AddAll(NewSession(id), logs))
    ensures Process(AddAll(NewSession(id), logs)).Ok?
    ensures var s := Process(AddAll(NewSession(id), logs)).value;
      s.id == id && s.userid == id.userid && s.url == id.url && s.tabid == id.tabid
    ensures var s := Process(AddAll(NewSession(id), logs)).value;
      TimeOrdered(s.logs) && multiset(s.logs) == multiset(logs)
  {
    AddAllFixesFields(id, logs);
    SameKeyFields(id, logs);
    SortLogsInSession(logs, id);
  }

  /** `start` and `end` are the earliest and latest timestamps of the
      session's records, and the duration `end - start` is non-negative. */
  lemma SessionTimes(id: SessionKey, logs: seq<Log>)
    requires 0 < |logs|
    requires forall i :: 0 <= i < |logs| ==> KeyOf(logs[i]) == id
    ensures Valid(AddAll(NewSession(id), logs))
    ensures Process(AddAll(NewSession(id), logs)).Ok?
    ensures var s := Process(AddAll(NewSession(id), logs)).value;
      (forall i :: 0 <= i < |logs| ==> s.start <= logs[i].timestamp <= s.end) &&
      s.start in Project(logs, TimeOf) && s.end in Project(logs, TimeOf)
    ensures var s := Process(AddAll(NewSession(id), logs)).value;
      s.duration == s.end - s.start && 0 <= s.duration
  {
    ProcessedAs(id, logs);
    SortLogsInSession(logs, id);
    OrderedBounds(SortLogs(logs), logs);
  }

  /** Building a session from records of one key and processing it is
      `Derive` on the sorted records. */
  lemma ProcessedAs(id: SessionKey, logs: seq<Log>)
    requires 0 < |logs|
    requires forall i :: 0 <= i < |logs| ==> KeyOf(logs[i]) == id
    ensures Valid(AddAll(NewSession(id), logs))
    ensures Process(AddAll(NewSession(id), logs)) == Ok(Derive(id, id, SortLogs(logs)))
  {
    AddAllFixesFields(id, logs);
    SameKeyFields(id, logs);
  }

  /** A session as the per-session steps leave it. */
  predicate Processed(s: Session)
  {
    0 < |s.logs| && TimeOrdered(s.logs) &&
    s == Derive(s.id, SessionKey(s.userid, s.url, s.tabid), s.logs)
  }

  lemma ProcessIsProcessed(id: SessionKey, logs: seq<Log>)
    requires 0 < |logs|
    requires forall i :: 0 <= i < |logs| ==> KeyOf(logs[i]) == id
    ensures Valid(AddAll(NewSession(id), logs))
    ensures Process(AddAll(NewSession(id), logs)).Ok?
    ensures Processed(Process(AddAll(NewSession(id), logs)).value)
  {
    ProcessedAs(id, logs);
    SortLogsInSession(logs, id);
    OrderedBounds(SortLogs(logs), logs);
  }

  /** A processed session has at most half as many downloads as records,
      a non-negative duration, and downloads that end no earlier than they
      start. */
  lemma ProcessedBounds(s: Session)
    requires Processed(s)
    ensures 2 * |s.downloads| <= |s.logs|
    ensures 0 <= s.duration
    ensures forall k :: 0 <= k < |s.downloads| ==> s.downloads[k].start() <= s.downloads[k].end()
  {
    PairCountBound(s.logs);
    DownloadsWithin(s.url, s.id, s.logs);
  }

  function TimeOf(l: Log): int { l.timestamp }
}
