/** `webtracker/totals.py`: figures pooled over all users once every user
    has its figures. */
module TotalsModel {
  import opened Wrappers
  import opened Seqs
  import opened ODict
  import opened Logs
  import opened SessionModel
  import opened OverlapModel
  import opened UserModel
  import opened Pipeline

  function UserOverlaps(us: seq<UserInfo>): (r: seq<seq<Overlap>>)
    ensures |r| == |us|
    ensures forall i :: 0 <= i < |us| ==> r[i] == us[i].overlaps
  {
    seq(|us|, i requires 0 <= i < |us| => us[i].overlaps)
  }

  /** `get_overlaps`: the loop skips users without overlaps. */
  function CollectOverlaps(us: seq<UserInfo>): seq<Overlap>
  {
    if |us| == 0 then []
    else
      var n := |us| - 1;
      CollectOverlaps(us[..n]) + (if 0 < |us[n].overlaps| then us[n].overlaps else [])
  }

  /** The collected overlaps are every user's overlaps, concatenated in
      user order; the guard skipping users without overlaps changes
      nothing. */
  lemma {:induction false} CollectOverlapsConcat(us: seq<UserInfo>)
    ensures CollectOverlaps(us) == Flatten(UserOverlaps(us))
    ensures |CollectOverlaps(us)| == SumLengths(UserOverlaps(us))
    decreases |us|
  {
    if 0 < |us| {
      var n := |us| - 1;
      CollectOverlapsConcat(us[..n]);
      assert UserOverlaps(us)[..n] == UserOverlaps(us[..n]);
    }
    FlattenLength(UserOverlaps(us));
  }

  /** An overlap is collected exactly when some user has it. */
  lemma CollectOverlapsMembers(us: seq<UserInfo>, o: Overlap)
    ensures o in CollectOverlaps(us) <==> exists i :: 0 <= i < |us| && o in us[i].overlaps
  {
    CollectOverlapsConcat(us);
    FlattenMembership(UserOverlaps(us), o);
  }

  function OverlappingUrlOf(o: Overlap): string { o.overlappingUrl }

  /** `get_overlapping_urls`: one url per collected overlap, in the same
      order. */
  function OverlappingUrls(ov: seq<Overlap>): (r: seq<string>)
    ensures |r| == |ov|
    ensures forall k :: 0 <= k < |ov| ==> r[k] == ov[k].overlappingUrl
  {
    Project(ov, OverlappingUrlOf)
  }

  /** For overlaps built by `Build`, the overlapping urls are the urls of
      the second member of each overlap. */
  lemma OverlappingUrlsAreSecondMembers(ov: seq<Overlap>)
    requires forall k :: 0 <= k < |ov| ==>
      2 <= |ov[k].overlappingStarts| &&
      Build(ov[k].start, ov[k].overlappingStarts, ov[k].end) == Ok(ov[k])
    ensures forall k :: 0 <= k < |ov| ==> OverlappingUrls(ov)[k] == ov[k].overlappingStarts[1].url
  {
    forall k | 0 <= k < |ov| ensures OverlappingUrls(ov)[k] == ov[k].overlappingStarts[1].url {
      BuildValues(ov[k].start, ov[k].overlappingStarts, ov[k].end);
    }
  }

  function EmptyCounts(url: string): seq<int> { [] }

  function DownloadCountOf(s: Session): int { |s.downloads| }

  /** `num_times[session.url].append(len(session.downloads))`. */
  function AppendCount(counts: seq<int>, s: Session): seq<int> { counts + [|s.downloads|] }

  /** `{url: sum(times)}` for every entry. */
  function SumValues(d: Dict<string, seq<int>>): (r: Dict<string, int>)
    ensures Keys(r) == Keys(d)
    ensures forall k :: 0 <= k < |d| ==> r[k].1 == Sum(d[k].1)
  {
    if |d| == 0 then []
    else
      var n := |d| - 1;
      assert Keys(d)[..n] == Keys(d[..n]);
      SumValues(d[..n]) + [(d[n].0, Sum(d[n].1))]
  }

  /** The counts of one user in `get_num_times_dloaded_per_url`. */
  function NumTimes(ss: seq<Session>): Dict<string, int>
  {
    SumValues(GroupFold(ss, SessionUrl, EmptyCounts, AppendCount))
  }

  lemma {:induction false} FoldAppendCount(xs: seq<Session>)
    ensures Fold([], xs, AppendCount) == Project(xs, DownloadCountOf)
    decreases |xs|
  {
    if 0 < |xs| {
      FoldAppendCount(xs[..|xs| - 1]);
    }
  }

  /** A user's counts have one entry per url of its sessions, in order of
      first appearance, holding the total number of downloads of that
      user's sessions of the url. */
  lemma NumTimesSpec(ss: seq<Session>)
    ensures Keys(NumTimes(ss)) == Dedup(Project(ss, SessionUrl))
    ensures forall url :: (Get(NumTimes(ss), url).Some? <==> url in Project(ss, SessionUrl))
    ensures forall url :: url in Project(ss, SessionUrl) ==>
      Get(NumTimes(ss), url) == Some(Sum(Project(FilterKey(ss, SessionUrl, url), DownloadCountOf)))
  {
    var g := GroupFold(ss, SessionUrl, EmptyCounts, AppendCount);
    var r := NumTimes(ss);
    GroupFoldSpec(ss, SessionUrl, EmptyCounts, AppendCount);
    forall url | url in Project(ss, SessionUrl)
      ensures Get(r, url) == Some(Sum(Project(FilterKey(ss, SessionUrl, url), DownloadCountOf)))
    {
      FoldAppendCount(FilterKey(ss, SessionUrl, url));
      var i := IndexOf(Keys(g), url);
      GetAt(g, i);
      assert Keys(r)[i] == url;
      GetAt(r, i);
    }
  }

  /** `d.update({k: v})` for each entry of `e` in order. */
  function UpdateAll<K(==), V>(d: Dict<K, V>, e: Dict<K, V>): Dict<K, V>
  {
    if |e| == 0 then d
    else
      var n := |e| - 1;
      Put(UpdateAll(d, e[..n]), e[n].0, e[n].1)
  }

  /** After the update an entry of `e` wins over one of `d`; keys stay
      distinct. */
  lemma {:induction false} UpdateAllGet<K, V>(d: Dict<K, V>, e: Dict<K, V>)
    requires NoDup(Keys(d)) && NoDup(Keys(e))
    ensures NoDup(Keys(UpdateAll(d, e)))
    ensures forall k :: Get(UpdateAll(d, e), k) == if k in Keys(e) then Get(e, k) else Get(d, k)
    decreases |e|
  {
    if 0 < |e| {
      var n := |e| - 1;
      var p := e[..n];
      assert Keys(e)[..n] == Keys(p);
      UpdateAllGet(d, p);
      var u := UpdateAll(d, p);
      assert UpdateAll(d, e) == Put(u, e[n].0, e[n].1);
      forall k ensures Get(Put(u, e[n].0, e[n].1), k) == if k in Keys(e) then Get(e, k) else Get(d, k) {
        UpdateLastGet(d, e, u, k);
      }
      PutGet(u, e[n].0, e[n].1, e[n].0);
    }
  }

  /** One step of `UpdateAll`: putting the last entry of `e` into the
      update by the others. */
  lemma UpdateLastGet<K, V>(d: Dict<K, V>, e: Dict<K, V>, u: Dict<K, V>, k: K)
    requires 0 < |e| && NoDup(Keys(e)) && NoDup(Keys(u))
    requires Get(u, k) == if k in Keys(e[..|e| - 1]) then Get(e[..|e| - 1], k) else Get(d, k)
    ensures Get(Put(u, e[|e| - 1].0, e[|e| - 1].1), k) == if k in Keys(e) then Get(e, k) else Get(d, k)
  {
    var n := |e| - 1;
    var x := e[n].0;
    assert Get(Put(u, x, e[n].1), k) == if k == x then Some(e[n].1) else Get(u, k) by {
      PutLookup(u, x, e[n].1, k);
    }
    assert k in Keys(e) <==> k in Keys(e[..n]) || k == x by {
      KeysSnoc(e);
    }
    if k in Keys(e[..n]) {
      assert k != x by {
        LastKeyFresh(e);
      }
      GetSnocOther(e, k);
    } else if k == x {
      GetAt(e, n);
    }
  }

  /** `get_num_times_dloaded_per_url`: each user's counts are merged into
      the result with `dict.update`. */
  function NumTimesDloadedPerUrl(us: seq<UserInfo>): Dict<string, int>
  {
    if |us| == 0 then []
    else
      var n := |us| - 1;
      UpdateAll(NumTimesDloadedPerUrl(us[..n]), NumTimes(us[n].user.sessions))
  }

  /** The count of the last user that has a session of `url`. */
  function LastCount(us: seq<UserInfo>, url: string): Option<int>
  {
    if |us| == 0 then None
    else
      var n := |us| - 1;
      if url in Project(us[n].user.sessions, SessionUrl) then Get(NumTimes(us[n].user.sessions), url)
      else LastCount(us[..n], url)
  }

  /** A url's pooled count is not a sum over users: it is the count of the
      last user with a session of that url, replacing every earlier
      user's. Urls no user visited have no entry. */
  lemma {:induction false} NumTimesLastUserWins(us: seq<UserInfo>)
    ensures NoDup(Keys(NumTimesDloadedPerUrl(us)))
    ensures forall url :: Get(NumTimesDloadedPerUrl(us), url) == LastCount(us, url)
    decreases |us|
  {
    if 0 < |us| {
      var n := |us| - 1;
      NumTimesLastUserWins(us[..n]);
      var ss := us[n].user.sessions;
      NumTimesSpec(ss);
      UpdateAllGet(NumTimesDloadedPerUrl(us[..n]), NumTimes(ss));
      forall url ensures Get(NumTimesDloadedPerUrl(us), url) == LastCount(us, url) {
        assert (url in Keys(NumTimes(ss))) == (url in Project(ss, SessionUrl));
      }
    }
  }

  /** `url_begins_an_overlap` after one more record: `dct not in d.items()`
      compares a dict with key/value pairs, so it always holds and every
      record whose url began an overlap sets "yes". */
  function MarkBegins(ovUrls: seq<string>): (Dict<string, string>, Log) -> Dict<string, string>
  {
    (d: Dict<string, string>, l: Log) => if l.url in ovUrls then Put(d, l.url, "yes") else d
  }

  /** Every user's records, user by user. */
  function AllUserLogs(us: seq<UserInfo>): seq<Log>
  {
    if |us| == 0 then [] else AllUserLogs(us[..|us| - 1]) + us[|us| - 1].logs
  }

  /** `get_url_begins_an_overlap`. */
  function UrlBeginsAnOverlap(us: seq<UserInfo>, ovUrls: seq<string>): Dict<string, string>
  {
    Fold([], AllUserLogs(us), MarkBegins(ovUrls))
  }

  /** Some record of `logs` is on `url`. */
  predicate Logged(logs: seq<Log>, url: string)
  {
    exists i :: 0 <= i < |logs| && logs[i].url == url
  }

  /** The urls of `logs` that began an overlap, in record order. */
  function BeginningUrls(logs: seq<Log>, ovUrls: seq<string>): (r: seq<string>)
    ensures forall x :: x in r <==> x in ovUrls && Logged(logs, x)
  {
    if |logs| == 0 then []
    else
      var n := |logs| - 1;
      var prev := BeginningUrls(logs[..n], ovUrls);
      assert forall i :: 0 <= i < n ==> logs[..n][i] == logs[i];
      assert forall x :: Logged(logs, x) <==> Logged(logs[..n], x) || logs[n].url == x;
      prev + (if logs[n].url in ovUrls then [logs[n].url] else [])
  }

  lemma DedupSnoc<T>(s: seq<T>, x: T)
    ensures Dedup(s + [x]) == if x in Dedup(s) then Dedup(s) else Dedup(s) + [x]
  {
    assert (s + [x])[..|s|] == s;
  }

  predicate AllYes(d: Dict<string, string>)
  {
    forall k :: 0 <= k < |d| ==> d[k].1 == "yes"
  }

  lemma PutYes(d: Dict<string, string>, x: string)
    requires AllYes(d)
    ensures AllYes(Put(d, x, "yes"))
  {
    var r := Put(d, x, "yes");
    if x in Keys(d) {
      var j := IndexOf(Keys(d), x);
      assert r == d[j := (x, "yes")];
      assert forall k :: 0 <= k < |r| ==> r[k] == if k == j then (x, "yes") else d[k];
    } else {
      assert r == d + [(x, "yes")];
      assert forall k :: 0 <= k < |r| ==> r[k] == if k < |d| then d[k] else (x, "yes");
    }
  }

  /** One record's step keeps the keys the distinct beginning urls so far
      and every value "yes". */
  lemma MarkBeginsStep(d: Dict<string, string>, l: Log, ovUrls: seq<string>, prev: seq<string>)
    requires Keys(d) == Dedup(prev) && AllYes(d)
    ensures Keys(MarkBegins(ovUrls)(d, l)) == Dedup(prev + (if l.url in ovUrls then [l.url] else []))
    ensures AllYes(MarkBegins(ovUrls)(d, l))
  {
    var x := l.url;
    var r := MarkBegins(ovUrls)(d, l);
    if x in ovUrls {
      assert r == Put(d, x, "yes");
      DedupSnoc(prev, x);
      PutGet(d, x, "yes", x);
      PutYes(d, x);
    } else {
      assert r == d;
      assert prev + [] == prev;
    }
  }

  /** Marking records one by one gives exactly the urls of the records
      that began an overlap, each once in order of first appearance, and
      every one of them maps to "yes". */
  lemma {:induction false} MarkBeginsSpec(logs: seq<Log>, ovUrls: seq<string>)
    ensures Keys(Fold([], logs, MarkBegins(ovUrls))) == Dedup(BeginningUrls(logs, ovUrls))
    ensures AllYes(Fold([], logs, MarkBegins(ovUrls)))
    decreases |logs|
  {
    if 0 < |logs| {
      var n := |logs| - 1;
      MarkBeginsSpec(logs[..n], ovUrls);
      MarkBeginsStep(Fold([], logs[..n], MarkBegins(ovUrls)), logs[n], ovUrls, BeginningUrls(logs[..n], ovUrls));
    }
  }

  /** `get_url_begins_an_overlap` maps each logged url that occurs in
      `overlapping_urls` to "yes", and no other url. */
  lemma UrlBeginsAnOverlapSpec(us: seq<UserInfo>, ovUrls: seq<string>)
    ensures NoDup(Keys(UrlBeginsAnOverlap(us, ovUrls)))
    ensures forall x :: x in Keys(UrlBeginsAnOverlap(us, ovUrls)) <==>
      x in ovUrls && Logged(AllUserLogs(us), x)
    ensures AllYes(UrlBeginsAnOverlap(us, ovUrls))
  {
    var logs := AllUserLogs(us);
    var b := BeginningUrls(logs, ovUrls);
    MarkBeginsSpec(logs, ovUrls);
    assert Keys(UrlBeginsAnOverlap(us, ovUrls)) == Dedup(b);
    forall x ensures x in Dedup(b) <==> x in b {
    }
  }

  /** `get_avg_overlap_duration`: no guard, so no overlap at all raises
      ZeroDivisionError (the rounding is left out). */
  function AvgOverlapDuration(ov: seq<Overlap>): (r: Fallible<real>)
    ensures r.Raises? <==> |ov| == 0
    ensures r.Raises? ==> r.error == ZeroDivisionError
    ensures r.Ok? ==> r.value * |ov| as real == Sum(OverlapDurations(ov)) as real
  {
    AvgOverlapTime(ov)
  }

  /** `get_avg_time_before_overlap_starts`: no guard; for overlaps as
      `get_overlaps` builds them it raises exactly when there is none, and
      is otherwise positive. */
  function TotalAvgTimeBeforeOverlapStarts(ov: seq<Overlap>): (r: Fallible<real>)
    ensures OverlapsFormed(ov) ==> (r.Raises? <==> |ov| == 0)
    ensures r.Ok? ==> TimesBefore(ov).Some? && r.value * |ov| as real == Sum(TimesBefore(ov).value) as real
    ensures OverlapsFormed(ov) && r.Ok? ==> 0.0 < r.value
  {
    AvgTimeBeforeOverlapStarts(ov)
  }

  /** `get_avg_num_urls_per_overlaps`: no guard; since `num_urls` stays 0
      the average is 0 whenever it is defined. */
  function TotalAvgNumUrlsPerOverlaps(ov: seq<Overlap>): (r: Fallible<real>)
    ensures r.Raises? <==> |ov| == 0
    ensures r.Raises? ==> r.error == ZeroDivisionError
    ensures OverlapsFormed(ov) && r.Ok? ==> r.value == 0.0
  {
    AvgNumUrlsPerOverlaps(ov)
  }

  /** The users whose average time between overlaps counts. */
  predicate HasGap(u: UserInfo)
  {
    0 < |u.overlaps| && u.avgTimeBetweenOverlaps.Some?
  }

  function GapAverages(us: seq<UserInfo>): (r: seq<real>)
    ensures |r| == |Filter(us, HasGap)|
    ensures forall k :: 0 <= k < |r| ==> Filter(us, HasGap)[k].avgTimeBetweenOverlaps == Some(r[k])
  {
    var f := Filter(us, HasGap);
    assert forall k :: 0 <= k < |f| ==> f[k] in f;
    seq(|f|, k requires 0 <= k < |f| => f[k].avgTimeBetweenOverlaps.value)
  }

  /** `get_avg_time_between_overlaps`: guarded, so it keeps its initial 0
      when no user has the value, and is otherwise the mean of the values
      of the users that have one. */
  function TotalAvgTimeBetweenOverlaps(us: seq<UserInfo>): (r: real)
    ensures |GapAverages(us)| == 0 ==> r == 0.0
    ensures 0 < |GapAverages(us)| ==> r * |GapAverages(us)| as real == RealSum(GapAverages(us))
  {
    var g := GapAverages(us);
    if |g| == 0 then 0.0
    else
      DivMul(RealSum(g), |g| as real);
      RealSum(g) / |g| as real
  }

  lemma DivMul(a: real, n: real)
    requires n != 0.0
    ensures (a / n) * n == a
  {
  }

  /** A user has an average time between overlaps exactly when it has two
      overlaps, so the users counted are those with at least two. */
  lemma GapUsers(us: seq<UserInfo>)
    requires forall i :: 0 <= i < |us| ==>
      (us[i].avgTimeBetweenOverlaps.Some? <==> 2 <= |us[i].overlaps|)
    ensures forall u :: u in Filter(us, HasGap) <==> u in us && 2 <= |u.overlaps|
  {
    forall u | u in us ensures HasGap(u) <==> 2 <= |u.overlaps| {
      var i :| 0 <= i < |us| && us[i] == u;
    }
  }
}
