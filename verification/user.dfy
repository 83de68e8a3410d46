/** `webtracker/user.py`: a user is the list of its sessions; the getters
    derive lists and figures from them. Attributes a getter never sets keep
    `None`, written `Option` here; a division the source performs without
    a guard is a `Fallible` that raises ZeroDivisionError. */
module UserModel {
  import opened Wrappers
  import opened Order
  import opened Seqs
  import opened Sorting
  import opened Logs
  import opened DownloadModel
  import opened SessionModel
  import opened Chaining
  import opened OverlapModel

  datatype User = User(id: string, sessions: seq<Session>)

  function SessionLogs(ss: seq<Session>): (r: seq<seq<Log>>)
    ensures |r| == |ss|
    ensures forall i :: 0 <= i < |ss| ==> r[i] == ss[i].logs
  {
    seq(|ss|, i requires 0 <= i < |ss| => ss[i].logs)
  }

  function SessionDownloads(ss: seq<Session>): (r: seq<seq<Download>>)
    ensures |r| == |ss|
    ensures forall i :: 0 <= i < |ss| ==> r[i] == ss[i].downloads
  {
    seq(|ss|, i requires 0 <= i < |ss| => ss[i].downloads)
  }

  /** The records of all sessions, session by session. */
  function AllLogs(u: User): seq<Log>
  {
    Flatten(SessionLogs(u.sessions))
  }

  /** `get_logs`: every record of every session exactly once, ordered by
      timestamp (stably). */
  function GetLogs(u: User): (r: seq<Log>)
    ensures multiset(r) == multiset(AllLogs(u))
    ensures |r| == |AllLogs(u)|
    ensures TimeOrdered(r)
  {
    var r := SortByKey(AllLogs(u), TimeKey);
    TimeKeySorted(r);
    r
  }

  function Timestamps(logs: seq<Log>): (r: seq<int>)
    ensures |r| == |logs|
    ensures forall i :: 0 <= i < |logs| ==> r[i] == logs[i].timestamp
  {
    Project(logs, TimeOf)
  }

  /** `get_browsing_time`: latest minus earliest timestamp; `max` of an
      empty sequence raises ValueError. */
  function BrowsingTime(logs: seq<Log>): (r: Fallible<int>)
    ensures r.Raises? <==> |logs| == 0
    ensures r.Raises? ==> r.error == ValueError
    ensures r.Ok? ==> 0 <= r.value
    ensures r.Ok? ==> forall i, j :: 0 <= i < |logs| && 0 <= j < |logs| ==>
      logs[i].timestamp - logs[j].timestamp <= r.value
  {
    if |logs| == 0 then Raises(ValueError)
    else
      var ts := Timestamps(logs);
      Ok(Max(ts) - Min(ts))
  }

  /** On time-ordered records the browsing time is last minus first. */
  lemma BrowsingTimeOrdered(logs: seq<Log>)
    requires 0 < |logs| && TimeOrdered(logs)
    ensures BrowsingTime(logs) == Ok(logs[|logs| - 1].timestamp - logs[0].timestamp)
  {
    var ts := Timestamps(logs);
    var hi := Max(ts);
    var lo := Min(ts);
    var i :| 0 <= i < |ts| && ts[i] == hi;
    var j :| 0 <= j < |ts| && ts[j] == lo;
  }

  predicate IsStart(l: Log) { l.status == STARTED }

  /** `get_starts`: the Started records of the sessions, each as often as
      it occurs there, and nothing else. */
  function GetStarts(u: User): (r: seq<Log>)
    ensures forall l | l in r :: l in AllLogs(u) && l.status == STARTED
    ensures forall l | l in AllLogs(u) && l.status == STARTED :: l in r
    ensures forall y :: multiset(r)[y] == if y.status == STARTED then multiset(AllLogs(u))[y] else 0
  {
    FilterCounts(AllLogs(u), IsStart);
    Filter(AllLogs(u), IsStart)
  }

  /** The nested loop of `get_starts`: sessions in order, and within each
      session its Started records in order. */
  function SessionStarts(ss: seq<Session>): seq<Log>
  {
    if |ss| == 0 then [] else SessionStarts(ss[..|ss| - 1]) + Filter(ss[|ss| - 1].logs, IsStart)
  }

  /** The starts come session by session, each session's in record order. */
  lemma {:induction false} GetStartsBySession(u: User)
    ensures GetStarts(u) == SessionStarts(u.sessions)
    decreases |u.sessions|
  {
    var ss := u.sessions;
    if 0 < |ss| {
      var n := |ss| - 1;
      var v := User(u.id, ss[..n]);
      GetStartsBySession(v);
      assert SessionLogs(ss)[..n] == SessionLogs(ss[..n]);
      assert AllLogs(u) == AllLogs(v) + ss[n].logs;
      FilterAppend(AllLogs(v), ss[n].logs, IsStart);
    }
  }

  function SessionUrl(s: Session): string { s.url }

  /** `get_all_urls_visited`: each session url once, in order of first
      appearance. */
  function UrlsVisited(u: User): (r: seq<string>)
    ensures NoDup(r)
    ensures forall x | x in r :: x in Project(u.sessions, SessionUrl)
    ensures forall x | x in Project(u.sessions, SessionUrl) :: x in r
    ensures FirstAppearanceOrder(r, Project(u.sessions, SessionUrl))
  {
    Dedup(Project(u.sessions, SessionUrl))
  }

  /** Every download of every session, session by session. */
  function AllDloads(u: User): seq<Download>
  {
    Flatten(SessionDownloads(u.sessions))
  }

  /** Sort key `(end, start)` of `get_dloads`. */
  function EndStartKey(d: Download): seq<Atom> { [Int(d.end()), Int(d.start())] }

  /** `get_dloads`: all downloads, ordered by end and then by start. */
  function GetDloads(u: User): (r: seq<Download>)
    ensures multiset(r) == multiset(AllDloads(u))
    ensures |r| == |AllDloads(u)|
    ensures forall i, j :: 0 <= i < j < |r| ==>
      r[i].end() < r[j].end() || (r[i].end() == r[j].end() && r[i].start() <= r[j].start())
  {
    var r := SortByKey(AllDloads(u), EndStartKey);
    forall i, j | 0 <= i < j < |r|
      ensures r[i].end() < r[j].end() || (r[i].end() == r[j].end() && r[i].start() <= r[j].start())
    {
      IntKey2Le(r[i].end(), r[i].start(), r[j].end(), r[j].start());
    }
    r
  }

  lemma DloadsEndSorted(u: User)
    ensures EndSorted(GetDloads(u))
  {
  }

  /** `len(dloads) * 2 / len(logs) * 100`. */
  function PercentDloads(dloads: nat, logs: nat): (r: Fallible<real>)
    ensures r.Raises? <==> logs == 0
    ensures r.Raises? ==> r.error == ZeroDivisionError
    ensures r.Ok? ==> r.value * logs as real == (2 * dloads) as real * 100.0
  {
    if logs == 0 then Raises(ZeroDivisionError)
    else Ok((2 * dloads) as real / logs as real * 100.0)
  }

  /** Sessions as the per-session steps leave them. */
  predicate AllProcessed(ss: seq<Session>)
  {
    forall i :: 0 <= i < |ss| ==> Processed(ss[i])
  }

  lemma {:induction false} DownloadLogBound(ss: seq<Session>)
    requires AllProcessed(ss)
    ensures 2 * |Flatten(SessionDownloads(ss))| <= |Flatten(SessionLogs(ss))|
    decreases |ss|
  {
    if |ss| > 0 {
      var n := |ss| - 1;
      DownloadLogBound(ss[..n]);
      ProcessedBounds(ss[n]);
      assert SessionDownloads(ss)[..n] == SessionDownloads(ss[..n]);
      assert SessionLogs(ss)[..n] == SessionLogs(ss[..n]);
    }
  }

  /** A user with at least one download has a download percentage in
      (0, 100]: downloads use disjoint pairs of records. */
  lemma PercentDloadsBound(u: User)
    requires AllProcessed(u.sessions)
    requires 0 < |GetDloads(u)|
    ensures PercentDloads(|GetDloads(u)|, |GetLogs(u)|).Ok?
    ensures 0.0 < PercentDloads(|GetDloads(u)|, |GetLogs(u)|).value <= 100.0
  {
    DownloadLogBound(u.sessions);
    RatioBound(2 * |GetDloads(u)|, |GetLogs(u)|);
  }

  lemma RatioBound(a: nat, b: nat)
    requires 0 < a <= b
    ensures 0.0 < a as real / b as real * 100.0 <= 100.0
  {
    var x := a as real / b as real;
    assert x * b as real == a as real;
  }

  /** `get_urls_in_dloads`: the comprehension tests membership in the
      attribute it is about to replace, which is still empty, so every
      download contributes its url, repeats included. It is the same
      comprehension as `Overlap.get_urls`. */
  function UrlsInDloads(dloads: seq<Download>): seq<string>
  {
    Urls(dloads)
  }

  predicate HasAvg(s: Session) { s.avgDloadTime.Some? }

  /** `get_avg_dload_time_per_session`: one entry per session with an
      average download time, in session order. */
  function AvgDloadTimePerSession(ss: seq<Session>): (r: seq<(SessionKey, real)>)
    ensures |r| == |Filter(ss, HasAvg)|
    ensures forall k :: 0 <= k < |r| ==>
      r[k].0 == Filter(ss, HasAvg)[k].id && Filter(ss, HasAvg)[k].avgDloadTime == Some(r[k].1)
  {
    var f := Filter(ss, HasAvg);
    FilterHasAvg(ss);
    seq(|f|, k requires 0 <= k < |f| => (f[k].id, f[k].avgDloadTime.value))
  }

  lemma FilterHasAvg(ss: seq<Session>)
    ensures forall k :: 0 <= k < |Filter(ss, HasAvg)| ==> Filter(ss, HasAvg)[k].avgDloadTime.Some?
  {
    var f := Filter(ss, HasAvg);
    forall k | 0 <= k < |f| ensures f[k].avgDloadTime.Some? {
      assert f[k] in f;
    }
  }

  function Durations(ss: seq<Session>): (r: seq<int>)
    ensures |r| == |ss|
    ensures forall i :: 0 <= i < |ss| ==> r[i] == ss[i].duration
  {
    seq(|ss|, i requires 0 <= i < |ss| => ss[i].duration)
  }

  /** `get_avg_session_time`: guarded by `0 < len(sessions)`. */
  function AvgSessionTime(ss: seq<Session>): (r: Option<real>)
    ensures r.None? <==> |ss| == 0
    ensures r.Some? ==> r.value * |ss| as real == Sum(Durations(ss)) as real
    ensures r.Some? && AllProcessed(ss) ==> 0.0 <= r.value
  {
    if |ss| == 0 then None
    else
      AvgSessionTimeNonNegative(ss);
      MeanTimesCount(Durations(ss));
      Some(Mean(Durations(ss)))
  }

  lemma AvgSessionTimeNonNegative(ss: seq<Session>)
    requires 0 < |ss|
    ensures AllProcessed(ss) ==> 0.0 <= Mean(Durations(ss))
  {
    if AllProcessed(ss) {
      forall i | 0 <= i < |ss| ensures 0 <= Durations(ss)[i] {
        ProcessedBounds(ss[i]);
      }
      MeanNonNegative(Durations(ss));
    }
  }

  /** A session on `url` with an average download time. */
  function OnUrlWithAvg(url: string): Session -> bool
  {
    (s: Session) => s.url == url && s.avgDloadTime.Some?
  }

  function AvgValue(s: Session): real
  {
    s.avgDloadTime.GetOr(0.0)
  }

  /** `avg_times[url]`: the average download times of the sessions on
      `url` that have one, in session order. */
  function UrlAvgs(ss: seq<Session>, url: string): seq<real>
  {
    Project(Filter(ss, OnUrlWithAvg(url)), AvgValue)
  }

  /** One average per session on `url` that has one, each that session's
      average. */
  lemma UrlAvgsSpec(ss: seq<Session>, url: string)
    ensures var r := UrlAvgs(ss, url);
      |r| == |Filter(ss, OnUrlWithAvg(url))| &&
      forall i :: 0 <= i < |r| ==> Filter(ss, OnUrlWithAvg(url))[i].avgDloadTime == Some(r[i])
  {
    var f := Filter(ss, OnUrlWithAvg(url));
    assert forall i :: 0 <= i < |f| ==> f[i] in f;
  }

  /** Sessions as the per-session steps leave them have non-negative
      averages. */
  lemma UrlAvgsNonNegative(ss: seq<Session>, url: string)
    requires AllProcessed(ss)
    ensures forall i :: 0 <= i < |UrlAvgs(ss, url)| ==> 0.0 <= UrlAvgs(ss, url)[i]
  {
    var f := Filter(ss, OnUrlWithAvg(url));
    UrlAvgsSpec(ss, url);
    forall i | 0 <= i < |f| ensures 0.0 <= UrlAvgs(ss, url)[i] {
      assert f[i] in f;
      var j :| 0 <= j < |ss| && ss[j] == f[i];
      assert Processed(ss[j]);
    }
  }

  /** Some session on `url` has an average download time. */
  function HasAvgFor(ss: seq<Session>): string -> bool
  {
    (url: string) => 0 < |UrlAvgs(ss, url)|
  }

  function EntryUrl(e: (string, real)): string { e.0 }

  /** `get_avg_dload_time_per_url`: for each url, in the order given, one
      `(url, mean)` entry when some session on it has an average download
      time; the inner loop over `avg_times` sees at most that one key. */
  function AvgDloadTimePerUrl(urls: seq<string>, ss: seq<Session>): seq<(string, real)>
  {
    if |urls| == 0 then []
    else
      var n := |urls| - 1;
      var url := urls[n];
      var avgs := UrlAvgs(ss, url);
      AvgDloadTimePerUrl(urls[..n], ss) + (if 0 < |avgs| then [(url, RealMean(avgs))] else [])
  }

  /** `e` is the entry of `url`: the url and the mean of its sessions'
      average download times, of which there is at least one. */
  predicate UrlEntry(ss: seq<Session>, url: string, e: (string, real))
  {
    e.0 == url && 0 < |UrlAvgs(ss, url)| && e.1 == RealMean(UrlAvgs(ss, url))
  }

  function IsUrlEntry(ss: seq<Session>): (string, (string, real)) -> bool
  {
    (url, e) => UrlEntry(ss, url, e)
  }

  /** One entry per url with an average download time, in order, holding
      the mean of that url's session averages. */
  lemma {:induction false} AvgDloadTimePerUrlSpec(urls: seq<string>, ss: seq<Session>)
    ensures |AvgDloadTimePerUrl(urls, ss)| == |Filter(urls, HasAvgFor(ss))|
    ensures forall k :: 0 <= k < |AvgDloadTimePerUrl(urls, ss)| ==>
      UrlEntry(ss, Filter(urls, HasAvgFor(ss))[k], AvgDloadTimePerUrl(urls, ss)[k])
    decreases |urls|
  {
    if 0 < |urls| {
      var n := |urls| - 1;
      AvgDloadTimePerUrlSpec(urls[..n], ss);
      var url := urls[n];
      var keep := 0 < |UrlAvgs(ss, url)|;
      var e := (url, if keep then RealMean(UrlAvgs(ss, url)) else 0.0);
      ZipStep(Filter(urls[..n], HasAvgFor(ss)), AvgDloadTimePerUrl(urls[..n], ss), url, keep, e, IsUrlEntry(ss));
      assert Filter(urls, HasAvgFor(ss)) == Filter(urls[..n], HasAvgFor(ss)) + (if keep then [url] else []);
      assert AvgDloadTimePerUrl(urls, ss) == AvgDloadTimePerUrl(urls[..n], ss) + (if keep then [e] else []);
    }
  }

  /** Run on the user's visited urls, every url some session of which has
      an average download time gets exactly one entry. */
  lemma AvgDloadTimePerUrlVisited(u: User)
    ensures forall s | s in u.sessions && s.avgDloadTime.Some? ::
      s.url in Project(AvgDloadTimePerUrl(UrlsVisited(u), u.sessions), EntryUrl)
    ensures NoDup(Project(AvgDloadTimePerUrl(UrlsVisited(u), u.sessions), EntryUrl))
  {
    var urls := UrlsVisited(u);
    var ss := u.sessions;
    var r := AvgDloadTimePerUrl(urls, ss);
    var f := Filter(urls, HasAvgFor(ss));
    AvgDloadTimePerUrlSpec(urls, ss);
    assert Project(r, EntryUrl) == f;
    forall s | s in ss && s.avgDloadTime.Some? ensures s.url in f {
      var i :| 0 <= i < |ss| && ss[i] == s;
      assert Project(ss, SessionUrl)[i] == s.url;
      assert s in Filter(ss, OnUrlWithAvg(s.url));
      UrlAvgsSpec(ss, s.url);
      assert HasAvgFor(ss)(s.url);
    }
    FilterNoDup(urls, HasAvgFor(ss));
  }

  /** Every per-url mean is non-negative for sessions as the per-session
      steps leave them. */
  lemma AvgDloadTimePerUrlNonNegative(urls: seq<string>, ss: seq<Session>)
    requires AllProcessed(ss)
    ensures forall k :: 0 <= k < |AvgDloadTimePerUrl(urls, ss)| ==> 0.0 <= AvgDloadTimePerUrl(urls, ss)[k].1
  {
    AvgDloadTimePerUrlSpec(urls, ss);
    forall k | 0 <= k < |AvgDloadTimePerUrl(urls, ss)| ensures 0.0 <= AvgDloadTimePerUrl(urls, ss)[k].1 {
      UrlAvgsNonNegative(ss, AvgDloadTimePerUrl(urls, ss)[k].0);
      RealMeanSpec(UrlAvgs(ss, AvgDloadTimePerUrl(urls, ss)[k].0));
    }
  }

  /** The downloads at the given positions. */
  function At(ds: seq<Download>, idxs: seq<nat>): (r: seq<Download>)
    requires forall k :: 0 <= k < |idxs| ==> idxs[k] < |ds|
    ensures |r| == |idxs|
    ensures forall k :: 0 <= k < |idxs| ==> r[k] == ds[idxs[k]]
  {
    seq(|idxs|, k requires 0 <= k < |idxs| => ds[idxs[k]])
  }

  /** `Overlap(self, starting_dload, list(total_overlaps.keys()), target_dload)`
      with its getters run; a well-formed chain has two members, so the
      constructor does not raise. */
  function ToOverlap(ds: seq<Download>, c: Chain): (o: Overlap)
    requires ChainOk(ds, c)
    ensures o.start == ds[c.anchor] && o.end == ds[c.terminator]
    ensures o.overlappingStarts == At(ds, c.members)
  {
    assert forall k :: 0 <= k < |c.members| ==> c.members[k] < |ds|;
    Build(ds[c.anchor], At(ds, c.members), ds[c.terminator]).value
  }

  function ToOverlaps(ds: seq<Download>, chains: seq<Chain>): (r: seq<Overlap>)
    requires ChainsOk(ds, chains)
    ensures |r| == |chains|
    ensures forall k :: 0 <= k < |chains| ==> r[k] == ToOverlap(ds, chains[k])
  {
    seq(|chains|, k requires 0 <= k < |chains| => (assert chains[k] in chains; ToOverlap(ds, chains[k])))
  }

  /** `get_overlaps` on the user's sorted downloads. */
  function GetOverlaps(u: User): seq<Overlap>
  {
    var ds := GetDloads(u);
    ToOverlaps(ds, Overlaps(ds))
  }

  /** Every overlap the scan emits has at least two members, all starting
      strictly after its anchor, so its time before the overlap starts is
      positive; its terminator ends no earlier than any member, so its
      overlap end is non-negative; it contributes nothing to `num_urls`. */
  lemma OverlapFacts(ds: seq<Download>, c: Chain)
    requires ChainOk(ds, c)
    ensures 2 <= |ToOverlap(ds, c).overlappingStarts|
    ensures ToOverlap(ds, c).timeBeforeOverlapStarts.Some?
    ensures ToOverlap(ds, c).timeBeforeOverlapStarts.value > 0
    ensures ToOverlap(ds, c).overlapEnd >= 0
    ensures ToOverlap(ds, c).numUrls == 0
  {
    var ms := At(ds, c.members);
    assert forall k :: 0 <= k < |ms| ==> ds[c.anchor].start() < ms[k].start() && ms[k].end() <= ds[c.terminator].end();
    BuildSigns(ds[c.anchor], ms, ds[c.terminator]);
  }

  function MemberCounts(ov: seq<Overlap>): (r: seq<int>)
    ensures |r| == |ov|
    ensures forall k :: 0 <= k < |ov| ==> r[k] == |ov[k].overlappingStarts| + 1
  {
    seq(|ov|, k requires 0 <= k < |ov| => |ov[k].overlappingStarts| + 1)
  }

  /** `get_percent_overlaps`: every overlap counts its members plus its
      anchor, over the number of records. */
  function PercentOverlaps(ov: seq<Overlap>, logs: nat): (r: Fallible<real>)
    ensures r.Raises? <==> logs == 0
    ensures r.Ok? ==> r.value * logs as real == Sum(MemberCounts(ov)) as real * 100.0
    ensures r.Ok? && 0 < |ov| ==> 0.0 < r.value
  {
    if logs == 0 then Raises(ZeroDivisionError)
    else
      MemberCountsPositive(ov);
      Ok(Sum(MemberCounts(ov)) as real / logs as real * 100.0)
  }

  function OverlapDurations(ov: seq<Overlap>): (r: seq<int>)
    ensures |r| == |ov|
    ensures forall k :: 0 <= k < |ov| ==> r[k] == ov[k].duration
  {
    seq(|ov|, k requires 0 <= k < |ov| => ov[k].duration)
  }

  function NumUrls(ov: seq<Overlap>): (r: seq<int>)
    ensures |r| == |ov|
    ensures forall k :: 0 <= k < |ov| ==> r[k] == ov[k].numUrls
  {
    seq(|ov|, k requires 0 <= k < |ov| => ov[k].numUrls)
  }

  /** `get_avg_overlap_time`: no guard of its own. */
  function AvgOverlapTime(ov: seq<Overlap>): (r: Fallible<real>)
    ensures r.Raises? <==> |ov| == 0
    ensures r.Ok? ==> r.value * |ov| as real == Sum(OverlapDurations(ov)) as real
  {
    if |ov| == 0 then Raises(ZeroDivisionError) else Ok(Mean(OverlapDurations(ov)))
  }

  /** `get_avg_num_urls_per_overlaps`: no guard of its own, and since
      `num_urls` is never assigned after construction the average is 0. */
  function AvgNumUrlsPerOverlaps(ov: seq<Overlap>): (r: Fallible<real>)
    ensures r.Raises? <==> |ov| == 0
    ensures r.Ok? && (forall k :: 0 <= k < |ov| ==> ov[k].numUrls == 0) ==> r.value == 0.0
  {
    if |ov| == 0 then Raises(ZeroDivisionError)
    else
      NumUrlsZero(ov);
      Ok(Mean(NumUrls(ov)))
  }

  /** The gaps `overlaps[i+1].overlap_start - overlaps[i].overlap_end`. */
  function Gaps(ov: seq<Overlap>): (r: seq<int>)
    requires 0 < |ov|
    ensures |r| == |ov| - 1
  {
    seq(|ov| - 1, i requires 0 <= i < |ov| - 1 => ov[i + 1].overlapStart - ov[i].overlapEnd)
  }

  /** The `while True` loop of `get_avg_time_between_overlaps`, which
      collects one gap per consecutive pair of overlaps. */
  method TimesBetweenOverlaps(ov: seq<Overlap>) returns (times: seq<int>)
    requires 2 <= |ov|
    ensures |times| == |ov| - 1
    ensures forall i :: 0 <= i < |times| ==> times[i] == ov[i + 1].overlapStart - ov[i].overlapEnd
    ensures times == Gaps(ov)
  {
    times := [];
    var idx := 0;
    while true
      invariant 0 <= idx < |ov|
      invariant |times| == idx
      invariant forall i :: 0 <= i < idx ==> times[i] == ov[i + 1].overlapStart - ov[i].overlapEnd
      decreases |ov| - idx
    {
      if idx == |ov| - 1 {
        break;
      }
      times := times + [ov[idx + 1].overlapStart - ov[idx].overlapEnd];
      idx := idx + 1;
    }
  }

  /** `get_avg_time_between_overlaps`: set only with two overlaps or more,
      to the mean of the gaps between consecutive overlaps. */
  function AvgTimeBetweenOverlaps(ov: seq<Overlap>): (r: Option<real>)
    ensures r.None? <==> |ov| < 2
    ensures r.Some? ==> r.value * (|ov| - 1) as real == Sum(Gaps(ov)) as real
  {
    if |ov| < 2 then None else Some(Mean(Gaps(ov)))
  }

  /** The `time_before_overlap_starts` values, or `None` when one of them
      is still `None` (adding `None` raises TypeError). */
  function TimesBefore(ov: seq<Overlap>): (r: Option<seq<int>>)
    ensures r.Some? <==> forall k :: 0 <= k < |ov| ==> ov[k].timeBeforeOverlapStarts.Some?
    ensures r.Some? ==> |r.value| == |ov|
    ensures r.Some? ==> forall k :: 0 <= k < |ov| ==> r.value[k] == ov[k].timeBeforeOverlapStarts.value
  {
    if |ov| == 0 then Some([])
    else
      var n := |ov| - 1;
      var prev := TimesBefore(ov[..n]);
      if prev.Some? && ov[n].timeBeforeOverlapStarts.Some? then
        Some(prev.value + [ov[n].timeBeforeOverlapStarts.value])
      else None
  }

  /** `get_avg_time_before_overlap_starts`: no guard of its own. */
  function AvgTimeBeforeOverlapStarts(ov: seq<Overlap>): (r: Fallible<real>)
    ensures r.Ok? <==> 0 < |ov| && forall k :: 0 <= k < |ov| ==> ov[k].timeBeforeOverlapStarts.Some?
    ensures r.Ok? ==> TimesBefore(ov).Some? && r.value * |ov| as real == Sum(TimesBefore(ov).value) as real
    ensures r.Ok? && (forall k :: 0 <= k < |ov| ==> ov[k].timeBeforeOverlapStarts.value > 0) ==> 0.0 < r.value
  {
    var ts := TimesBefore(ov);
    if ts.None? then Raises(TypeError)
    else if |ov| == 0 then Raises(ZeroDivisionError)
    else
      TimesBeforePositive(ov);
      MeanTimesCount(ts.value);
      Ok(Mean(ts.value))
  }

  lemma MemberCountsPositive(ov: seq<Overlap>)
    ensures 0 < |ov| ==> 0 < Sum(MemberCounts(ov))
  {
    if 0 < |ov| {
      SumPositive(MemberCounts(ov));
    }
  }

  lemma NumUrlsZero(ov: seq<Overlap>)
    ensures (forall k :: 0 <= k < |ov| ==> ov[k].numUrls == 0) ==> Sum(NumUrls(ov)) == 0
  {
    if forall k :: 0 <= k < |ov| ==> ov[k].numUrls == 0 {
      SumAllZero(NumUrls(ov));
    }
  }

  lemma TimesBeforePositive(ov: seq<Overlap>)
    requires 0 < |ov| && TimesBefore(ov).Some?
    ensures (forall k :: 0 <= k < |ov| ==> ov[k].timeBeforeOverlapStarts.value > 0) ==>
      0.0 < Mean(TimesBefore(ov).value)
  {
    if forall k :: 0 <= k < |ov| ==> ov[k].timeBeforeOverlapStarts.value > 0 {
      MeanPositive(TimesBefore(ov).value);
    }
  }
}
