/** The draft `v3.py`: records grouped by url, closed records dropped after
    the first of each url, and per url the download time of each user and
    tab, found by sorting that pair's records by status. */
module V3 {
  import opened Wrappers
  import opened Seqs
  import opened Order
  import opened Sorting
  import opened ODict
  import opened Logs
  import V6

  /** The grouping step of `get_unique_urls`: the first record of a url is
      kept whatever its status, later closed ones are skipped. */
  function UrlAdd(g: seq<Log>, x: Log): seq<Log>
  {
    if |g| == 0 then [x] else if x.status == CLOSED then g else g + [x]
  }

  /** `get_unique_urls`. */
  function UniqueUrls(logs: seq<Log>): Dict<string, seq<Log>>
  {
    GroupFold(logs, UrlOf, EmptyGroup, UrlAdd)
  }

  lemma {:induction false} FoldUrlAdd(xs: seq<Log>)
    requires 0 < |xs|
    ensures Fold([], xs, UrlAdd) == [xs[0]] + Filter(xs[1..], V6.Open)
    decreases |xs|
  {
    var n := |xs| - 1;
    if n == 0 {
      assert Fold([], xs[..0], UrlAdd) == [];
      assert xs[1..] == [];
    } else {
      FoldUrlAdd(xs[..n]);
      assert xs[..n][1..] == xs[1..][..n - 1];
      assert xs[1..][n - 1] == xs[n];
      assert Fold([], xs, UrlAdd) == UrlAdd(Fold([], xs[..n], UrlAdd), xs[n]);
    }
  }

  /** Urls appear in the order of their first record; each url keeps its
      first record and then its later records that are not closed, in
      input order. */
  lemma UniqueUrlsSpec(logs: seq<Log>)
    ensures Keys(UniqueUrls(logs)) == Dedup(Project(logs, UrlOf))
    ensures forall u :: u !in Project(logs, UrlOf) ==> Get(UniqueUrls(logs), u) == None
    ensures forall u | u in Project(logs, UrlOf) ::
      var f := FilterKey(logs, UrlOf, u);
      0 < |f| && Get(UniqueUrls(logs), u) == Some([f[0]] + Filter(f[1..], V6.Open))
  {
    GroupFoldSpec(logs, UrlOf, EmptyGroup, UrlAdd);
    forall u | u in Project(logs, UrlOf)
      ensures var f := FilterKey(logs, UrlOf, u);
        0 < |f| && Get(UniqueUrls(logs), u) == Some([f[0]] + Filter(f[1..], V6.Open))
    {
      var f := FilterKey(logs, UrlOf, u);
      var i :| 0 <= i < |logs| && UrlOf(logs[i]) == u;
      FilterKeyMembers(logs, UrlOf, u);
      assert logs[i] in f;
      FoldUrlAdd(f);
    }
  }

  function UserTab(l: Log): (string, int) { (l.userid, l.tabid) }

  function StatusOf(l: Log): int { l.status }

  /** The time `avg_dload_time` records for the records of one user and
      tab: sorted stably by status, the last timestamp minus the first when
      there are two records or more, the first sorted one is Started and
      the last is Finished. */
  function GroupTime(grp: seq<Log>): Option<int>
  {
    var r := SortByKey(grp, StatusKey);
    if 2 <= |r| && r[|r| - 1].status == FINISHED && r[0].status == STARTED
    then Some(r[|r| - 1].timestamp - r[0].timestamp)
    else None
  }

  /** Records with status `c`, in input order. */
  function WithStatus(grp: seq<Log>, c: int): seq<Log>
  {
    KeyClass(grp, StatusKey, [Int(c)])
  }

  /** In a list ordered by status the head has the least status and the
      last element the greatest. */
  lemma SortedStatusRange(r: seq<Log>)
    requires 0 < |r| && SortedByKey(r, StatusKey)
    ensures forall k :: 0 <= k < |r| ==> r[0].status <= r[k].status <= r[|r| - 1].status
  {
    forall k | 0 <= k < |r| ensures r[0].status <= r[k].status <= r[|r| - 1].status {
      if 0 < k {
        IntKey1Le(r[0].status, r[k].status);
      }
      if k < |r| - 1 {
        IntKey1Le(r[k].status, r[|r| - 1].status);
      }
    }
  }

  /** A rearrangement ordered by status starts with the least status and
      ends with the greatest. */
  lemma StatusEnds(grp: seq<Log>, r: seq<Log>)
    requires 0 < |grp|
    requires multiset(r) == multiset(grp)
    requires SortedByKey(r, StatusKey)
    ensures |r| == |grp|
    ensures r[0].status == Min(Project(grp, StatusOf))
    ensures r[|r| - 1].status == Max(Project(grp, StatusOf))
  {
    assert |r| == |grp| by {
      assert |r| == |multiset(r)| == |grp|;
    }
    SortedStatusRange(r);
    var ss := Project(grp, StatusOf);
    assert r[0].status <= Min(ss) by {
      var lo :| 0 <= lo < |ss| && ss[lo] == Min(ss);
      assert grp[lo] in multiset(r);
    }
    assert Min(ss) <= r[0].status by {
      assert r[0] in multiset(grp);
    }
    assert Max(ss) <= r[|r| - 1].status by {
      var hi :| 0 <= hi < |ss| && ss[hi] == Max(ss);
      assert grp[hi] in multiset(r);
    }
    assert r[|r| - 1].status <= Max(ss) by {
      assert r[|r| - 1] in multiset(grp);
    }
  }

  /** In a key-sorted list the head is the first element of its class and
      the last element is the last of its class. */
  lemma ClassEnds(r: seq<Log>)
    requires 0 < |r|
    ensures 0 < |KeyClass(r, StatusKey, StatusKey(r[0]))|
    ensures KeyClass(r, StatusKey, StatusKey(r[0]))[0] == r[0]
    ensures var c := KeyClass(r, StatusKey, StatusKey(r[|r| - 1]));
      0 < |c| && c[|c| - 1] == r[|r| - 1]
  {
    KeyClassHead(r, StatusKey, StatusKey(r[0]));
  }

  /** A time is recorded exactly when there are two records or more, the
      least status is Started and the greatest Finished, so no record is
      closed or of an unknown status; it is the timestamp of the last
      Finished record minus that of the first Started record, in input
      order. */
  lemma GroupTimeSpec(grp: seq<Log>)
    ensures GroupTime(grp).Some? <==>
      2 <= |grp| && Min(Project(grp, StatusOf)) == STARTED && Max(Project(grp, StatusOf)) == FINISHED
    ensures GroupTime(grp).Some? ==>
      var st := WithStatus(grp, STARTED);
      var fin := WithStatus(grp, FINISHED);
      0 < |st| && 0 < |fin| &&
      GroupTime(grp).value == fin[|fin| - 1].timestamp - st[0].timestamp
  {
    GroupTimeWhen(grp);
    if GroupTime(grp).Some? {
      GroupTimeValue(grp);
    }
  }

  lemma GroupTimeWhen(grp: seq<Log>)
    ensures GroupTime(grp).Some? <==>
      2 <= |grp| && Min(Project(grp, StatusOf)) == STARTED && Max(Project(grp, StatusOf)) == FINISHED
  {
    var r := SortByKey(grp, StatusKey);
    if 0 < |grp| {
      StatusEnds(grp, r);
    }
  }

  lemma GroupTimeValue(grp: seq<Log>)
    requires GroupTime(grp).Some?
    ensures var st := WithStatus(grp, STARTED);
      var fin := WithStatus(grp, FINISHED);
      0 < |st| && 0 < |fin| &&
      GroupTime(grp).value == fin[|fin| - 1].timestamp - st[0].timestamp
  {
    var r := SortByKey(grp, StatusKey);
    var first := KeyClass(r, StatusKey, StatusKey(r[0]));
    var last := KeyClass(r, StatusKey, StatusKey(r[|r| - 1]));
    assert 0 < |first| && first[0] == r[0] && 0 < |last| && last[|last| - 1] == r[|r| - 1] by {
      ClassEnds(r);
    }
    assert first == WithStatus(grp, STARTED);
    assert last == WithStatus(grp, FINISHED);
  }

  /** The records of a two-record group with status `c`, in input order. */
  lemma WithStatusPair(a: Log, b: Log, c: int)
    ensures WithStatus([a, b], c) == (if a.status == c then [a] else []) + (if b.status == c then [b] else [])
  {
    assert [a, b] == [a] + [b];
    KeyClassCons(a, [b], StatusKey, [Int(c)]);
    KeyClassSingle(b, StatusKey, [Int(c)]);
  }

  /** A Finished record followed by a Started one records the Finished
      timestamp minus the Started timestamp, whatever their order in time. */
  lemma FinishedThenStarted(grp: seq<Log>)
    requires |grp| == 2 && grp[0].status == FINISHED && grp[1].status == STARTED
    ensures GroupTime(grp).Some? && GroupTime(grp).value == grp[0].timestamp - grp[1].timestamp
  {
    var a, b := grp[0], grp[1];
    assert grp == [a, b];
    var ss := Project(grp, StatusOf);
    assert Min(ss) == STARTED && Max(ss) == FINISHED by {
      assert ss == [FINISHED, STARTED];
      assert ss[..1] == [FINISHED];
    }
    assert WithStatus(grp, STARTED) == [b] by {
      WithStatusPair(a, b, STARTED);
    }
    assert WithStatus(grp, FINISHED) == [a] by {
      WithStatusPair(a, b, FINISHED);
    }
    GroupTimeSpec(grp);
  }

  /** Sorting by status alone can put a Finished record before a Started
      one in time: a Finished record at 0 and a Started one at 5 give -5. */
  lemma NegativeTimeExample()
    ensures var t := GroupTime([Log(0, "u", 1, "w", FINISHED), Log(5, "u", 1, "w", STARTED)]);
      t.Some? && t.value == -5
  {
    FinishedThenStarted([Log(0, "u", 1, "w", FINISHED), Log(5, "u", 1, "w", STARTED)]);
  }

  /** A `User: ... Tab: ... Download time: ...` line. */
  datatype Line = Line(userid: string, tabid: int, time: int)

  predicate Recorded(p: ((string, int), seq<Log>)) { GroupTime(p.1).Some? }

  /** `download_times`: the recorded times, one per user and tab. */
  function Times(groups: Dict<(string, int), seq<Log>>): seq<int>
  {
    if |groups| == 0 then []
    else
      var n := |groups| - 1;
      var t := GroupTime(groups[n].1);
      Times(groups[..n]) + (if t.Some? then [t.value] else [])
  }

  /** The lines printed, as written: a recorded time of -1 is taken for
      the "nothing recorded" marker and not printed. */
  function LinesAsWritten(groups: Dict<(string, int), seq<Log>>): seq<Line>
  {
    if |groups| == 0 then []
    else
      var n := |groups| - 1;
      var t := GroupTime(groups[n].1);
      LinesAsWritten(groups[..n]) +
      (if t.Some? && t.value != -1 then [Line(groups[n].0.0, groups[n].0.1, t.value)] else [])
  }

  /** The lines printed, one per recorded time. */
  function Lines(groups: Dict<(string, int), seq<Log>>): seq<Line>
  {
    if |groups| == 0 then []
    else
      var n := |groups| - 1;
      var t := GroupTime(groups[n].1);
      Lines(groups[..n]) + (if t.Some? then [Line(groups[n].0.0, groups[n].0.1, t.value)] else [])
  }

  /** `t` is the time recorded for group `g`. */
  predicate TimeOf(g: ((string, int), seq<Log>), t: int)
  {
    GroupTime(g.1) == Some(t)
  }

  /** `l` is the line printed for group `g`, which has a time. */
  predicate LineOf(g: ((string, int), seq<Log>), l: Line)
  {
    GroupTime(g.1).Some? && l == Line(g.0.0, g.0.1, GroupTime(g.1).value)
  }

  /** The recorded times are those of the groups with a time, in order. */
  lemma {:induction false} TimesSpec(groups: Dict<(string, int), seq<Log>>)
    ensures |Times(groups)| == |Filter(groups, Recorded)|
    ensures forall k :: 0 <= k < |Times(groups)| ==>
      GroupTime(Filter(groups, Recorded)[k].1) == Some(Times(groups)[k])
    decreases |groups|
  {
    if 0 < |groups| {
      var n := |groups| - 1;
      TimesSpec(groups[..n]);
      var t := GroupTime(groups[n].1);
      ZipStep(Filter(groups[..n], Recorded), Times(groups[..n]), groups[n], t.Some?, t.GetOr(0), TimeOf);
      assert Filter(groups, Recorded) == Filter(groups[..n], Recorded) + (if t.Some? then [groups[n]] else []);
    }
  }

  /** The lines are those of the groups with a time, in order. */
  lemma {:induction false} LinesOfRecorded(groups: Dict<(string, int), seq<Log>>)
    ensures |Lines(groups)| == |Filter(groups, Recorded)|
    ensures forall k :: 0 <= k < |Lines(groups)| ==>
      var g := Filter(groups, Recorded)[k];
      GroupTime(g.1).Some? && Lines(groups)[k] == Line(g.0.0, g.0.1, GroupTime(g.1).value)
    decreases |groups|
  {
    if 0 < |groups| {
      var n := |groups| - 1;
      LinesOfRecorded(groups[..n]);
      var t := GroupTime(groups[n].1);
      var line := Line(groups[n].0.0, groups[n].0.1, t.GetOr(0));
      ZipStep(Filter(groups[..n], Recorded), Lines(groups[..n]), groups[n], t.Some?, line, LineOf);
      assert Filter(groups, Recorded) == Filter(groups[..n], Recorded) + (if t.Some? then [groups[n]] else []);
    }
  }

  /** Every recorded time gets its line, with its user and tab. */
  lemma LinesSpec(groups: Dict<(string, int), seq<Log>>)
    ensures |Lines(groups)| == |Times(groups)| == |Filter(groups, Recorded)|
    ensures forall k :: 0 <= k < |Lines(groups)| ==>
      Lines(groups)[k].time == Times(groups)[k] &&
      (Lines(groups)[k].userid, Lines(groups)[k].tabid) == Filter(groups, Recorded)[k].0
  {
    TimesSpec(groups);
    LinesOfRecorded(groups);
  }

  /** A Finished record at 4 and a Started one at 5 of one user and tab
      record a time of -1 that counts in the average but whose line is not
      printed. */
  lemma SentinelHidesTime()
    ensures var groups := [(("u", 1), [Log(4, "u", 1, "w", FINISHED), Log(5, "u", 1, "w", STARTED)])];
      Times(groups) == [-1] && LinesAsWritten(groups) == [] && |Lines(groups)| == 1
  {
    var grp := [Log(4, "u", 1, "w", FINISHED), Log(5, "u", 1, "w", STARTED)];
    var groups := [(("u", 1), grp)];
    FinishedThenStarted(grp);
    assert groups[..0] == [];
  }

  /** The report for one url. */
  datatype UrlReport = UrlReport(url: string, lines: seq<Line>, avg: Option<real>)

  /** The average is printed exactly when some time was recorded, and it
      is their mean. */
  function AvgOf(ts: seq<int>): (r: Option<real>)
    ensures r.Some? <==> 0 < |ts|
    ensures r.Some? ==> r.value * |ts| as real == Sum(ts) as real
  {
    if |ts| == 0 then None
    else
      MeanTimesCount(ts);
      Some(Mean(ts))
  }

  /** The report printed for one url: the lines that pass the `!= -1`
      test, and the average of every recorded time. */
  function UrlReportOf(p: (string, seq<Log>)): UrlReport
  {
    var groups := GroupBy(p.1, UserTab);
    UrlReport(p.0, LinesAsWritten(groups), AvgOf(Times(groups)))
  }

  /** The report with the corrected lines, one per recorded time. */
  function UrlReportCorrected(p: (string, seq<Log>)): UrlReport
  {
    var groups := GroupBy(p.1, UserTab);
    UrlReport(p.0, Lines(groups), AvgOf(Times(groups)))
  }

  /** `avg_dload_time` as written: a report per url, in the order of
      `get_unique_urls`. */
  function AvgDloadTime(logs: seq<Log>): seq<UrlReport>
  {
    Project(UniqueUrls(logs), UrlReportOf)
  }

  /** `avg_dload_time` with every recorded time printed. */
  function AvgDloadTimeCorrected(logs: seq<Log>): seq<UrlReport>
  {
    Project(UniqueUrls(logs), UrlReportCorrected)
  }

  /** One report per url, in order of first appearance, each over the
      records `get_unique_urls` kept for it, as written and corrected. */
  lemma AvgDloadTimeSpec(logs: seq<Log>)
    ensures |AvgDloadTime(logs)| == |AvgDloadTimeCorrected(logs)| == |Dedup(Project(logs, UrlOf))|
    ensures forall i :: 0 <= i < |AvgDloadTime(logs)| ==>
      var u := Dedup(Project(logs, UrlOf))[i];
      var f := FilterKey(logs, UrlOf, u);
      0 < |f| && AvgDloadTime(logs)[i] == UrlReportOf((u, [f[0]] + Filter(f[1..], V6.Open))) &&
      AvgDloadTimeCorrected(logs)[i] == UrlReportCorrected((u, [f[0]] + Filter(f[1..], V6.Open)))
  {
    var d := UniqueUrls(logs);
    UniqueUrlsSpec(logs);
    forall i | 0 <= i < |d|
      ensures var u := Keys(d)[i];
        var f := FilterKey(logs, UrlOf, u);
        0 < |f| && d[i].1 == [f[0]] + Filter(f[1..], V6.Open)
    {
      GetAt(d, i);
    }
  }

  /** The records of `SentinelHidesTime`, both on url "w". */
  function SentinelLogs(): seq<Log>
  {
    [Log(4, "u", 1, "w", FINISHED), Log(5, "u", 1, "w", STARTED)]
  }

  /** On the records of `SentinelHidesTime`, the printed report for the url
      has an average of -1 but no line, while the corrected report prints
      the line of that time. */
  lemma SentinelReport()
    ensures AvgDloadTime(SentinelLogs()) == [UrlReport("w", [], Some(-1.0))]
    ensures AvgDloadTimeCorrected(SentinelLogs()) == [UrlReport("w", [Line("u", 1, -1)], Some(-1.0))]
  {
    var logs := SentinelLogs();
    var groups := [(("u", 1), logs)];
    OneUrlReport(logs[0], logs[1]);
    assert Times(groups) == [-1] && LinesAsWritten(groups) == [] && Lines(groups) == [Line("u", 1, -1)] by {
      SentinelHidesTime();
      LinesSpec(groups);
    }
    assert AvgOf([-1]) == Some(-1.0) by {
      assert Sum([-1]) == Sum([]) + -1;
    }
  }

  /** Two records of one user, tab and url, the second not closed, make
      one report with one group. */
  lemma OneUrlReport(a: Log, b: Log)
    requires UrlOf(a) == UrlOf(b) && UserTab(a) == UserTab(b) && V6.Open(b)
    ensures var groups := [(UserTab(a), [a, b])];
      AvgDloadTime([a, b]) == [UrlReport(UrlOf(a), LinesAsWritten(groups), AvgOf(Times(groups)))] &&
      AvgDloadTimeCorrected([a, b]) == [UrlReport(UrlOf(a), Lines(groups), AvgOf(Times(groups)))]
  {
    DedupProjectTwo(a, b, UrlOf);
    KeptTogether(a, b);
    AvgDloadTimeSpec([a, b]);
    GroupByTwo(a, b, UserTab);
  }

  /** Two records on one url, the second not closed, are kept together. */

  lemma KeptTogether(a: Log, b: Log)
    requires UrlOf(a) == UrlOf(b) && V6.Open(b)
    ensures var f := FilterKey([a, b], UrlOf, UrlOf(a));
      0 < |f| && [f[0]] + Filter(f[1..], V6.Open) == [a, b]
  {
    var f := FilterKey([a, b], UrlOf, UrlOf(a));
    assert f == [a, b] by {
      FilterKeyAll([a, b], UrlOf, UrlOf(a));
    }
    assert Filter(f[1..], V6.Open) == [b] by {
      assert f[1..] == [b];
      FilterAll([b], V6.Open);
    }
  }
}
