/** The single-file draft `webtracker.py`. Its sessions, downloads, users,
    start records and per-user url list follow the same rules as the
    package and reuse `SessionModel`, `UserModel` and `Pipeline`; what is
    new here is the static overlap search and the website report. */
module LegacyTracker {
  import opened Seqs
  import opened Order
  import opened Sorting
  import opened Logs
  import opened DownloadModel
  import opened SessionModel
  import opened UserModel

  /** An `Overlap` of the draft: the start and end records of one download
      and what was found inside it. */
  datatype StaticOverlap<T> = StaticOverlap(start: Log, members: seq<T>, end: Log)

  /** A Started record of another session strictly inside the download. */
  predicate StartInside(d: Download, sid: SessionKey, l: Log)
  {
    d.start() < l.timestamp < d.end() && KeyOf(l) != sid
  }

  /** A download of another session starting strictly inside the download. */
  predicate DloadInside(d: Download, sid: SessionKey, e: Download)
  {
    d.start() < e.start() < d.end() && e.sessionId != sid
  }

  function StartsInside(d: Download, sid: SessionKey): Log -> bool
  {
    (l: Log) => StartInside(d, sid, l)
  }

  function DloadsInside(d: Download, sid: SessionKey): Download -> bool
  {
    (e: Download) => DloadInside(d, sid, e)
  }

  function StartKey(e: Download): seq<Atom> { [Int(e.start())] }

  /** Two permutations of each other hold the same elements. */
  lemma SameMembers<T>(a: seq<T>, b: seq<T>)
    requires multiset(a) == multiset(b)
    ensures forall x :: x in a <==> x in b
  {
    forall x ensures x in a <==> x in b {
      assert x in a <==> x in multiset(a);
      assert x in b <==> x in multiset(b);
    }
  }

  /** The `overlap_ones` entry for download `d` of session `sid`: the
      qualifying Started records, ordered by timestamp. */
  function OverlapOnes(d: Download, sid: SessionKey, starts: seq<Log>): (o: StaticOverlap<Log>)
    ensures o.start == d.startLog && o.end == d.endLog
    ensures forall l :: l in o.members <==> l in starts && StartInside(d, sid, l)
    ensures multiset(o.members) == multiset(Filter(starts, StartsInside(d, sid)))
    ensures TimeOrdered(o.members)
  {
    var found := Filter(starts, StartsInside(d, sid));
    var r := SortByKey(found, TimeKey);
    TimeKeySorted(r);
    SameMembers(r, found);
    StaticOverlap(d.startLog, r, d.endLog)
  }

  lemma StartKeySorted(ds: seq<Download>)
    requires SortedByKey(ds, StartKey)
    ensures forall i, j :: 0 <= i < j < |ds| ==> ds[i].start() <= ds[j].start()
  {
    forall i, j | 0 <= i < j < |ds| ensures ds[i].start() <= ds[j].start() {
      IntKey1Le(ds[i].start(), ds[j].start());
    }
  }

  /** The `overlap_dloads` entry for download `d` of session `sid`: the
      qualifying downloads, ordered by start. */
  function OverlapDloads(d: Download, sid: SessionKey, dloads: seq<Download>): (o: StaticOverlap<Download>)
    ensures o.start == d.startLog && o.end == d.endLog
    ensures forall e :: e in o.members <==> e in dloads && DloadInside(d, sid, e)
    ensures multiset(o.members) == multiset(Filter(dloads, DloadsInside(d, sid)))
    ensures forall i, j :: 0 <= i < j < |o.members| ==> o.members[i].start() <= o.members[j].start()
  {
    var found := Filter(dloads, DloadsInside(d, sid));
    var r := SortByKey(found, StartKey);
    StartKeySorted(r);
    SameMembers(r, found);
    StaticOverlap(d.startLog, r, d.endLog)
  }

  /** The nested loop `for session in sessions: for download in
      session.downloads: ... f(download, session.hash)`. */
  function PerDownload<R>(ss: seq<Session>, f: (Download, SessionKey) -> R): seq<R>
  {
    if |ss| == 0 then []
    else
      var s := ss[|ss| - 1];
      PerDownload(ss[..|ss| - 1], f) + seq(|s.downloads|, k requires 0 <= k < |s.downloads| => f(s.downloads[k], s.id))
  }

  /** Every download carries the key of the session that found it, as the
      draft's `Download(self, self._session_id, ...)` does. */
  predicate OwnIds(ss: seq<Session>)
  {
    forall i, k :: 0 <= i < |ss| && 0 <= k < |ss[i].downloads| ==> ss[i].downloads[k].sessionId == ss[i].id
  }

  lemma ProcessedOwnIds(ss: seq<Session>)
    requires AllProcessed(ss)
    ensures OwnIds(ss)
  {
    forall i, k | 0 <= i < |ss| && 0 <= k < |ss[i].downloads| ensures ss[i].downloads[k].sessionId == ss[i].id {
      assert Processed(ss[i]);
    }
  }

  /** With own ids the nested loop visits the downloads of `AllDloads`
      one by one, in that order. */
  lemma {:induction false} PerDownloadFlat<R>(ss: seq<Session>, f: (Download, SessionKey) -> R)
    requires OwnIds(ss)
    ensures var all := Flatten(SessionDownloads(ss));
      |PerDownload(ss, f)| == |all| &&
      forall k :: 0 <= k < |all| ==> PerDownload(ss, f)[k] == f(all[k], all[k].sessionId)
    decreases |ss|
  {
    if 0 < |ss| {
      var n := |ss| - 1;
      assert OwnIds(ss[..n]) by {
        forall i, k | 0 <= i < n && 0 <= k < |ss[..n][i].downloads|
          ensures ss[..n][i].downloads[k].sessionId == ss[..n][i].id
        {
          assert ss[..n][i] == ss[i];
        }
      }
      PerDownloadFlat(ss[..n], f);
      assert SessionDownloads(ss)[..n] == SessionDownloads(ss[..n]);
    }
  }

  /** `get_static_overlaps`: the `overlap_dloads` list and the
      `overlap_ones` list, given the `starts` that `get_starts` found. */
  function StaticOverlaps(u: User, starts: seq<Log>): (seq<StaticOverlap<Download>>, seq<StaticOverlap<Log>>)
  {
    (PerDownload(u.sessions, DloadsOverlap(AllDloads(u))),
     PerDownload(u.sessions, OnesOverlap(starts)))
  }

  function DloadsOverlap(dloads: seq<Download>): (Download, SessionKey) -> StaticOverlap<Download>
  {
    (d, sid) => OverlapDloads(d, sid, dloads)
  }

  function OnesOverlap(starts: seq<Log>): (Download, SessionKey) -> StaticOverlap<Log>
  {
    (d, sid) => OverlapOnes(d, sid, starts)
  }

  /** Each list gets exactly one overlap per download, in download order,
      even when nothing overlaps; its members are the Started records and
      the downloads of the user's other sessions strictly inside that
      download, in time order. */
  lemma StaticOverlapsSpec(u: User)
    requires AllProcessed(u.sessions)
    ensures var r := StaticOverlaps(u, GetStarts(u));
      var all := AllDloads(u);
      |r.0| == |all| && |r.1| == |all| &&
      forall k :: 0 <= k < |all| ==> OverlapEntry(u, all[k], r.0[k], r.1[k])
  {
    var all := AllDloads(u);
    var r := StaticOverlaps(u, GetStarts(u));
    StaticDloadsFlat(u);
    StaticOnesFlat(u, GetStarts(u));
    forall k | 0 <= k < |all|
      ensures OverlapEntry(u, all[k], r.0[k], r.1[k])
    {
      OverlapEntryOf(u, all[k]);
    }
  }

  lemma StaticDloadsFlat(u: User)
    requires AllProcessed(u.sessions)
    ensures var r := StaticOverlaps(u, []).0;
      var all := AllDloads(u);
      |r| == |all| &&
      forall k :: 0 <= k < |all| ==> r[k] == OverlapDloads(all[k], all[k].sessionId, all)
  {
    ProcessedOwnIds(u.sessions);
    PerDownloadFlat(u.sessions, DloadsOverlap(AllDloads(u)));
  }

  lemma StaticOnesFlat(u: User, starts: seq<Log>)
    requires AllProcessed(u.sessions)
    ensures var r := StaticOverlaps(u, starts).1;
      var all := AllDloads(u);
      |r| == |all| &&
      forall k :: 0 <= k < |all| ==> r[k] == OverlapOnes(all[k], all[k].sessionId, starts)
  {
    ProcessedOwnIds(u.sessions);
    PerDownloadFlat(u.sessions, OnesOverlap(starts));
  }

  /** What `StaticOverlapsSpec` says of the two overlaps of download `d`. */
  ghost predicate OverlapEntry(u: User, d: Download, o: StaticOverlap<Download>, p: StaticOverlap<Log>)
  {
    o.start == d.startLog && o.end == d.endLog &&
    p.start == d.startLog && p.end == d.endLog &&
    (forall e :: e in o.members <==>
       e in AllDloads(u) && d.start() < e.start() < d.end() && e.sessionId != d.sessionId) &&
    (forall l :: l in p.members <==>
       l in AllLogs(u) && l.status == STARTED &&
       d.start() < l.timestamp < d.end() && KeyOf(l) != d.sessionId) &&
    TimeOrdered(p.members)
  }

  lemma OverlapEntryOf(u: User, d: Download)
    ensures OverlapEntry(u, d, OverlapDloads(d, d.sessionId, AllDloads(u)),
                         OverlapOnes(d, d.sessionId, GetStarts(u)))
  {
  }

  /** A report line of `num_unique_websites_per_user`. */
  datatype Websites = Websites(userid: string, sites: seq<string>, total: nat)

  predicate HasSessions(u: User) { 0 < |u.sessions| }

  function WebsitesOf(u: User): (w: Websites)
    ensures w.userid == u.id && w.sites == UrlsVisited(u)
    ensures w.total == |w.sites|
  {
    var sites := UrlsVisited(u);
    Websites(u.id, sites, |sites|)
  }

  /** `num_unique_websites_per_user`: a report only for users whose list is
      non-empty, that is users with at least one session. */
  function WebsitesPerUser(us: seq<User>): (r: seq<Websites>)
    ensures |r| == |Filter(us, HasSessions)|
    ensures forall k :: 0 <= k < |r| ==> r[k] == WebsitesOf(Filter(us, HasSessions)[k])
  {
    Project(Filter(us, HasSessions), WebsitesOf)
  }

  /** The url list is empty exactly when the user has no session, so a
      user is reported exactly when it has a session. */
  lemma WebsitesReported(us: seq<User>, u: User)
    requires u in us
    ensures 0 < |UrlsVisited(u)| <==> HasSessions(u)
    ensures HasSessions(u) <==> exists k :: 0 <= k < |WebsitesPerUser(us)| && WebsitesPerUser(us)[k] == WebsitesOf(u)
  {
    var f := Filter(us, HasSessions);
    if HasSessions(u) {
      assert u.sessions[0].url in Project(u.sessions, SessionUrl);
      assert u in f;
      var k :| 0 <= k < |f| && f[k] == u;
      assert WebsitesPerUser(us)[k] == WebsitesOf(u);
    } else {
      assert Project(u.sessions, SessionUrl) == [];
      if exists k :: 0 <= k < |WebsitesPerUser(us)| && WebsitesPerUser(us)[k] == WebsitesOf(u) {
        var k :| 0 <= k < |WebsitesPerUser(us)| && WebsitesPerUser(us)[k] == WebsitesOf(u);
        assert f[k] in f;
        assert UrlsVisited(f[k]) == UrlsVisited(u);
        assert f[k].id == u.id;
        assert HasSessions(f[k]);
        assert f[k].sessions[0].url in Project(f[k].sessions, SessionUrl);
      }
    }
  }
}
