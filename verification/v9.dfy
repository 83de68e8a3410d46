/** The draft `v9.py`: sessions keyed by user, url and tab, each with its
    records sorted by timestamp, its earliest timestamp and its downloads
    as start and end timestamps; the sessions ordered by start. */
module V9 {
  import opened Seqs
  import opened Order
  import opened Sorting
  import opened ODict
  import opened Logs

  /** A `Download` of the draft: the timestamps of its Started and its
      Finished record. */
  datatype Dload = Dload(start: int, end: int)

  /** A `Session` once `sort_logs` and `get_downloads` have run. */
  datatype Session = Session(
    id: SessionKey, userid: string, url: string, tabid: int,
    logs: seq<Log>, start: int, downloads: seq<Dload>)

  function Stamp(l: Log): int { l.timestamp }

  /** The first record of a time-ordered rearrangement of `logs` carries
      the earliest timestamp. */
  lemma EarliestFirst(logs: seq<Log>, sorted: seq<Log>)
    requires 0 < |logs|
    requires multiset(sorted) == multiset(logs)
    requires TimeOrdered(sorted)
    ensures 0 < |sorted| && sorted[0].timestamp == Min(Project(logs, Stamp))
  {
    assert |sorted| == |multiset(sorted)| == |logs|;
    var ts := Project(logs, Stamp);
    var m := Min(ts);
    var i :| 0 <= i < |ts| && ts[i] == m;
    assert logs[i] in multiset(sorted);
    var j :| 0 <= j < |sorted| && sorted[j] == logs[i];
    assert sorted[0] in multiset(logs);
    var k :| 0 <= k < |logs| && logs[k] == sorted[0];
    assert m <= ts[k];
  }

  /** `sort_logs`: the records ordered by timestamp, and `start`, the
      timestamp of the first of them, which is the earliest. */
  function SortLogs(logs: seq<Log>): (r: (seq<Log>, int))
    requires 0 < |logs|
    ensures multiset(r.0) == multiset(logs)
    ensures TimeOrdered(r.0)
    ensures r.1 == Min(Project(logs, Stamp))
  {
    var sorted := SortByKey(logs, TimeKey);
    TimeKeySorted(sorted);
    EarliestFirst(logs, sorted);
    (sorted, sorted[0].timestamp)
  }

  /** `get_downloads`: a download for each Started record directly
      followed by a Finished record. */
  function GetDownloads(logs: seq<Log>): seq<Dload>
  {
    var idx := PairIndices(logs);
    seq(|idx|, k requires 0 <= k < |idx| => Dload(logs[idx[k]].timestamp, logs[idx[k] + 1].timestamp))
  }

  /** The downloads are exactly the adjacent Started/Finished pairs, at
      most one per two records, and none ends before it starts when the
      records are in time order. */
  lemma GetDownloadsSpec(logs: seq<Log>)
    ensures forall d :: d in GetDownloads(logs) <==>
      exists i :: IsPairAt(logs, i) && d == Dload(logs[i].timestamp, logs[i + 1].timestamp)
    ensures 2 * |GetDownloads(logs)| <= |logs|
    ensures TimeOrdered(logs) ==> forall d | d in GetDownloads(logs) :: d.start <= d.end
  {
    forall d ensures d in GetDownloads(logs) <==>
      exists i :: IsPairAt(logs, i) && d == Dload(logs[i].timestamp, logs[i + 1].timestamp)
    {
      GetDownloadsMember(logs, d);
    }
    assert 2 * |GetDownloads(logs)| <= |logs| by {
      PairCountBound(logs);
    }
  }

  lemma GetDownloadsMember(logs: seq<Log>, d: Dload)
    ensures d in GetDownloads(logs) <==>
      exists i :: IsPairAt(logs, i) && d == Dload(logs[i].timestamp, logs[i + 1].timestamp)
  {
    if exists i :: IsPairAt(logs, i) && d == Dload(logs[i].timestamp, logs[i + 1].timestamp) {
      var i :| IsPairAt(logs, i) && d == Dload(logs[i].timestamp, logs[i + 1].timestamp);
      DownloadOfPair(logs, i);
    }
    if d in GetDownloads(logs) {
      var k :| 0 <= k < |GetDownloads(logs)| && GetDownloads(logs)[k] == d;
      PairOfDownload(logs, k);
    }
  }

  lemma DownloadOfPair(logs: seq<Log>, i: nat)
    requires IsPairAt(logs, i)
    ensures Dload(logs[i].timestamp, logs[i + 1].timestamp) in GetDownloads(logs)
  {
    var idx := PairIndices(logs);
    var k :| 0 <= k < |idx| && idx[k] == i;
    assert GetDownloads(logs)[k] == Dload(logs[i].timestamp, logs[i + 1].timestamp);
  }

  lemma PairOfDownload(logs: seq<Log>, k: nat)
    requires k < |GetDownloads(logs)|
    ensures var i := PairIndices(logs)[k];
      IsPairAt(logs, i) && GetDownloads(logs)[k] == Dload(logs[i].timestamp, logs[i + 1].timestamp)
  {
  }

  /** A session built from the records added to it. `add_log` copies the
      user, url and tab of the first record; every record added shares
      them, since all carry the session's key. */
  function MakeSession(id: SessionKey, logs: seq<Log>): (s: Session)
    requires 0 < |logs|
  {
    var (sorted, start) := SortLogs(logs);
    Session(id, logs[0].userid, logs[0].url, logs[0].tabid, sorted, start, GetDownloads(sorted))
  }

  /** Sort key `(start, userid, url, tabid)` of `generate_sessions`. */
  function SessionOrderKey(s: Session): seq<Atom>
  {
    [Int(s.start), Str(s.userid), Str(s.url), Int(s.tabid)]
  }

  lemma GroupsNonEmpty(logs: seq<Log>)
    ensures forall j :: 0 <= j < |GroupBy(logs, KeyOf)| ==> 0 < |GroupBy(logs, KeyOf)[j].1|
  {
    forall j | 0 <= j < |GroupBy(logs, KeyOf)| ensures 0 < |GroupBy(logs, KeyOf)[j].1| {
      GroupAt(logs, KeyOf, j);
    }
  }

  function Built(g: Dict<SessionKey, seq<Log>>): (ss: seq<Session>)
    requires forall j :: 0 <= j < |g| ==> 0 < |g[j].1|
    ensures |ss| == |g|
    ensures forall j :: 0 <= j < |g| ==> ss[j] == MakeSession(g[j].0, g[j].1)
  {
    seq(|g|, j requires 0 <= j < |g| => MakeSession(g[j].0, g[j].1))
  }

  /** `generate_sessions`. */
  function GenerateSessions(logs: seq<Log>): seq<Session>
  {
    GroupsNonEmpty(logs);
    SortByKey(Built(GroupBy(logs, KeyOf)), SessionOrderKey)
  }

  function SessionId(s: Session): SessionKey { s.id }

  /** A session as `generate_sessions` builds it from the records `logs`. */
  predicate SessionOf(s: Session, logs: seq<Log>)
  {
    multiset(s.logs) == multiset(FilterKey(logs, KeyOf, s.id)) &&
    0 < |s.logs| && TimeOrdered(s.logs) &&
    s.start == s.logs[0].timestamp &&
    s.start == Min(Project(FilterKey(logs, KeyOf, s.id), Stamp)) &&
    s.userid == s.id.userid && s.url == s.id.url && s.tabid == s.id.tabid &&
    s.downloads == GetDownloads(s.logs)
  }

  /** Each built session holds the records of its key. */
  lemma BuiltSessionOf(logs: seq<Log>, j: nat)
    requires j < |GroupBy(logs, KeyOf)|
    ensures var g := GroupBy(logs, KeyOf);
      0 < |g[j].1| && SessionOf(MakeSession(g[j].0, g[j].1), logs)
  {
    var g := GroupBy(logs, KeyOf);
    GroupsNonEmpty(logs);
    GroupAt(logs, KeyOf, j);
    var grp := g[j].1;
    FilterKeyMembers(logs, KeyOf, g[j].0);
    assert KeyOf(grp[0]) == g[j].0;
  }

  /** Each session of `generate_sessions` is one of the built sessions. */
  lemma SessionsBuilt(logs: seq<Log>, i: nat)
    requires i < |GenerateSessions(logs)|
    ensures var g := GroupBy(logs, KeyOf);
      exists j :: 0 <= j < |g| && 0 < |g[j].1| && GenerateSessions(logs)[i] == MakeSession(g[j].0, g[j].1)
  {
    GroupsNonEmpty(logs);
    var g := GroupBy(logs, KeyOf);
    var ss := Built(g);
    var x := GenerateSessions(logs)[i];
    assert x in multiset(ss);
    var j :| 0 <= j < |ss| && ss[j] == x;
    assert 0 < |g[j].1| && x == MakeSession(g[j].0, g[j].1);
  }

  lemma SessionsAreSessionOf(logs: seq<Log>)
    ensures forall i :: 0 <= i < |GenerateSessions(logs)| ==> SessionOf(GenerateSessions(logs)[i], logs)
  {
    var r := GenerateSessions(logs);
    GroupsNonEmpty(logs);
    var g := GroupBy(logs, KeyOf);
    forall i | 0 <= i < |r| ensures SessionOf(r[i], logs) {
      SessionsBuilt(logs, i);
      var j :| 0 <= j < |g| && 0 < |g[j].1| && r[i] == MakeSession(g[j].0, g[j].1);
      BuiltSessionOf(logs, j);
    }
  }

  /** Rearranging sessions keeps their keys and their distinctness. */
  lemma PermutedIds(ss: seq<Session>, r: seq<Session>)
    requires multiset(r) == multiset(ss)
    requires NoDup(Project(ss, SessionId))
    ensures NoDup(Project(r, SessionId))
    ensures forall k :: k in Project(r, SessionId) <==> k in Project(ss, SessionId)
  {
    var ids := Project(ss, SessionId);
    assert NoDup(ss) by {
      forall a, b | 0 <= a < b < |ss| ensures ss[a] != ss[b] {
        assert ids[a] != ids[b];
      }
    }
    NoDupPermutation(ss, r);
    forall a, b | 0 <= a < b < |r| ensures r[a].id != r[b].id {
      assert r[a] in multiset(ss) && r[b] in multiset(ss);
      DistinctIds(ss, r[a], r[b]);
    }
    forall k ensures k in Project(r, SessionId) <==> k in ids {
      if k in ids {
        var x := MemberOfId(ss, k);
        assert x in multiset(r);
        IdOfMember(r, x);
      }
      if k in Project(r, SessionId) {
        var x := MemberOfId(r, k);
        assert x in multiset(ss);
        IdOfMember(ss, x);
      }
    }
  }

  lemma IdOfMember(ss: seq<Session>, x: Session)
    requires x in ss
    ensures x.id in Project(ss, SessionId)
  {
    var j :| 0 <= j < |ss| && ss[j] == x;
    assert Project(ss, SessionId)[j] == x.id;
  }

  lemma MemberOfId(ss: seq<Session>, k: SessionKey) returns (x: Session)
    requires k in Project(ss, SessionId)
    ensures x in ss && x.id == k
  {
    var j :| 0 <= j < |ss| && Project(ss, SessionId)[j] == k;
    x := ss[j];
  }

  /** Two different sessions of a list with distinct keys have different keys. */
  lemma DistinctIds(ss: seq<Session>, x: Session, y: Session)
    requires NoDup(Project(ss, SessionId)) && x in ss && y in ss && x != y
    ensures x.id != y.id
  {
    var i :| 0 <= i < |ss| && ss[i] == x;
    var j :| 0 <= j < |ss| && ss[j] == y;
    assert i != j;
    assert Project(ss, SessionId)[i] == x.id && Project(ss, SessionId)[j] == y.id;
  }

  /** The sessions carry the keys of the records, each once. */
  lemma SessionsIds(logs: seq<Log>)
    ensures NoDup(Project(GenerateSessions(logs), SessionId))
    ensures forall k :: k in Project(GenerateSessions(logs), SessionId) <==> k in Project(logs, KeyOf)
  {
    var g := GroupBy(logs, KeyOf);
    GroupsNonEmpty(logs);
    GroupBySpec(logs, KeyOf);
    var ss := Built(g);
    assert Project(ss, SessionId) == Keys(g);
    PermutedIds(ss, GenerateSessions(logs));
  }

  lemma SessionsByStart(logs: seq<Log>)
    ensures SortedByKey(GenerateSessions(logs), SessionOrderKey)
    ensures forall i, j :: 0 <= i < j < |GenerateSessions(logs)| ==>
      GenerateSessions(logs)[i].start <= GenerateSessions(logs)[j].start
  {
    var r := GenerateSessions(logs);
    forall i, j | 0 <= i < j < |r| ensures r[i].start <= r[j].start {
      StartFirst(SessionOrderKey(r[i]), SessionOrderKey(r[j]));
    }
  }

  /** Every session holds exactly the records of its key, in time order,
      starts at their earliest timestamp and lists their downloads; the
      keys are the keys of the records, each once; the sessions are ordered
      by `(start, userid, url, tabid)`, so by start first. */
  lemma GenerateSessionsSpec(logs: seq<Log>)
    ensures var r := GenerateSessions(logs);
      (forall i :: 0 <= i < |r| ==> SessionOf(r[i], logs)) &&
      (forall k :: k in Project(r, SessionId) <==> k in Project(logs, KeyOf)) &&
      NoDup(Project(r, SessionId)) &&
      SortedByKey(r, SessionOrderKey) &&
      (forall i, j :: 0 <= i < j < |r| ==> r[i].start <= r[j].start)
  {
    SessionsAreSessionOf(logs);
    SessionsIds(logs);
    SessionsByStart(logs);
  }

  /** Tuples compare by their first component first. */
  lemma StartFirst(a: seq<Atom>, b: seq<Atom>)
    requires 0 < |a| && 0 < |b| && a[0].Int? && b[0].Int?
    requires KeyLe(a, b)
    ensures a[0].i <= b[0].i
  {
  }

  /** Sessions with distinct keys, each holding the records of its key,
      hold every record in exactly one session. */
  lemma OneSession(r: seq<Session>, logs: seq<Log>, l: Log, i: nat)
    requires l in logs
    requires forall a :: 0 <= a < |r| ==> multiset(r[a].logs) == multiset(FilterKey(logs, KeyOf, r[a].id))
    requires forall a, b :: 0 <= a < b < |r| ==> r[a].id != r[b].id
    requires i < |r| && r[i].id == KeyOf(l)
    ensures l in r[i].logs
    ensures forall a :: 0 <= a < |r| && l in r[a].logs ==> a == i
  {
    FilterKeyMembers(logs, KeyOf, KeyOf(l));
    assert l in multiset(r[i].logs);
    forall a | 0 <= a < |r| && l in r[a].logs ensures r[a].id == KeyOf(l) {
      assert l in multiset(FilterKey(logs, KeyOf, r[a].id));
      FilterKeyMembers(logs, KeyOf, r[a].id);
    }
  }

  lemma OneSessionOf(r: seq<Session>, logs: seq<Log>, l: Log)
    requires l in logs
    requires forall a :: 0 <= a < |r| ==> multiset(r[a].logs) == multiset(FilterKey(logs, KeyOf, r[a].id))
    requires NoDup(Project(r, SessionId))
    requires forall k :: k in Project(r, SessionId) <==> k in Project(logs, KeyOf)
    ensures (exists i :: 0 <= i < |r| && l in r[i].logs) &&
      forall i, j :: 0 <= i < |r| && 0 <= j < |r| && l in r[i].logs && l in r[j].logs ==> i == j
  {
    var ids := Project(r, SessionId);
    assert KeyOf(l) in Project(logs, KeyOf);
    var i :| 0 <= i < |r| && ids[i] == KeyOf(l);
    forall a, b | 0 <= a < b < |r| ensures r[a].id != r[b].id {
      assert ids[a] != ids[b];
    }
    OneSession(r, logs, l, i);
  }

  lemma SessionsHoldKeyRecords(logs: seq<Log>)
    ensures forall a :: 0 <= a < |GenerateSessions(logs)| ==>
      multiset(GenerateSessions(logs)[a].logs) == multiset(FilterKey(logs, KeyOf, GenerateSessions(logs)[a].id))
  {
    SessionsAreSessionOf(logs);
  }

  /** Every record lies in exactly one session, the one of its key. */
  lemma EachLogOneSession(logs: seq<Log>, l: Log)
    requires l in logs
    ensures var r := GenerateSessions(logs);
      (exists i :: 0 <= i < |r| && l in r[i].logs) &&
      forall i, j :: 0 <= i < |r| && 0 <= j < |r| && l in r[i].logs && l in r[j].logs ==> i == j
  {
    SessionsHoldKeyRecords(logs);
    SessionsIds(logs);
    OneSessionOf(GenerateSessions(logs), logs, l);
  }

  /** The download times of a session. */
  function DloadTimes(ds: seq<Dload>): (ts: seq<int>)
    ensures |ts| == |ds|
    ensures forall k :: 0 <= k < |ds| ==> ts[k] == ds[k].end - ds[k].start
  {
    seq(|ds|, k requires 0 <= k < |ds| => ds[k].end - ds[k].start)
  }

  predicate HasDownloads(s: Session) { 0 < |s.downloads| }

  /** A line that `avg_url_dload_time` files under a user. */
  datatype Report = Report(userid: string, url: string, tabid: int, avg: real)

  function ReportOf(s: Session): Report
    requires HasDownloads(s)
  {
    Report(s.userid, s.url, s.tabid, Mean(DloadTimes(s.downloads)))
  }

  /** The lines in session order, one per session with a download. */
  function Lines(ss: seq<Session>): seq<Report>
  {
    if |ss| == 0 then []
    else
      var n := |ss| - 1;
      Lines(ss[..n]) + (if HasDownloads(ss[n]) then [ReportOf(ss[n])] else [])
  }

  function ReportUser(r: Report): string { r.userid }

  /** `avg_url_dload_time`: the lines grouped by user. */
  function AvgUrlDloadTime(ss: seq<Session>): Dict<string, seq<Report>>
  {
    GroupBy(Lines(ss), ReportUser)
  }

  lemma {:induction false} LinesSpec(ss: seq<Session>)
    ensures |Lines(ss)| == |Filter(ss, HasDownloads)|
    ensures forall k :: 0 <= k < |Lines(ss)| ==>
      HasDownloads(Filter(ss, HasDownloads)[k]) &&
      Lines(ss)[k] == ReportOf(Filter(ss, HasDownloads)[k])
    decreases |ss|
  {
    if 0 < |ss| {
      var n := |ss| - 1;
      LinesSpec(ss[..n]);
      assert ss == ss[..n] + [ss[n]];
      FilterAppend(ss[..n], [ss[n]], HasDownloads);
    }
  }

  /** A line holds its session's user, url and tab and the mean of its
      download times. */
  lemma ReportMean(s: Session)
    requires HasDownloads(s)
    ensures ReportOf(s).userid == s.userid && ReportOf(s).url == s.url && ReportOf(s).tabid == s.tabid
    ensures ReportOf(s).avg * |s.downloads| as real == Sum(DloadTimes(s.downloads)) as real
  {
    var ts := DloadTimes(s.downloads);
    var m := ReportOf(s).avg;
    assert m == Mean(ts);
    MeanTimesCount(ts);
    assert m * |ts| as real == Sum(ts) as real;
  }

  /** The users of the lines are the users of the sessions with a
      download. */
  lemma LineUsers(ss: seq<Session>)
    ensures forall u :: u in Project(Lines(ss), ReportUser) <==>
      exists s :: s in ss && HasDownloads(s) && s.userid == u
  {
    var ls := Lines(ss);
    var f := Filter(ss, HasDownloads);
    LinesSpec(ss);
    var us := Project(ls, ReportUser);
    forall u ensures u in us <==> exists s :: s in ss && HasDownloads(s) && s.userid == u {
      if exists s :: s in ss && HasDownloads(s) && s.userid == u {
        var s :| s in ss && HasDownloads(s) && s.userid == u;
        var k :| 0 <= k < |f| && f[k] == s;
        assert us[k] == ReportOf(s).userid == u;
      }
      if u in us {
        var k :| 0 <= k < |ls| && us[k] == u;
        assert f[k] in f;
      }
    }
  }

  /** A user is listed exactly when one of its sessions has a download. */
  lemma AvgUrlDloadTimeUsers(ss: seq<Session>)
    ensures forall u :: u in Keys(AvgUrlDloadTime(ss)) <==>
      exists s :: s in ss && HasDownloads(s) && s.userid == u
  {
    assert Keys(AvgUrlDloadTime(ss)) == Dedup(Project(Lines(ss), ReportUser)) by {
      GroupBySpec(Lines(ss), ReportUser);
    }
    LineUsers(ss);
  }

  /** Each line listed under a user is the line of one of that user's
      sessions with a download. */
  lemma AvgUrlDloadTimeLines(ss: seq<Session>)
    ensures forall u, line ::
      Get(AvgUrlDloadTime(ss), u).Some? && line in Get(AvgUrlDloadTime(ss), u).value ==>
      line.userid == u && exists s :: s in ss && HasDownloads(s) && line == ReportOf(s)
  {
    var ls := Lines(ss);
    var f := Filter(ss, HasDownloads);
    LinesSpec(ss);
    GroupBySpec(ls, ReportUser);
    forall u, line | Get(AvgUrlDloadTime(ss), u).Some? && line in Get(AvgUrlDloadTime(ss), u).value
      ensures line.userid == u && exists s :: s in ss && HasDownloads(s) && line == ReportOf(s)
    {
      assert Get(AvgUrlDloadTime(ss), u).value == FilterKey(ls, ReportUser, u);
      FilterKeyMembers(ls, ReportUser, u);
      var k :| 0 <= k < |ls| && ls[k] == line;
      assert f[k] in f;
    }
  }

  /** The sessions of `generate_sessions` have time-ordered records, so
      their average download time is never negative. */
  lemma AvgNonNegative(logs: seq<Log>, s: Session)
    requires s in GenerateSessions(logs)
    requires HasDownloads(s)
    ensures 0.0 <= ReportOf(s).avg
  {
    SessionsAreSessionOf(logs);
    GetDownloadsSpec(s.logs);
    var ts := DloadTimes(s.downloads);
    forall k | 0 <= k < |ts| ensures 0 <= ts[k] {
      assert s.downloads[k] in GetDownloads(s.logs);
    }
    MeanNonNegative(ts);
  }
}
