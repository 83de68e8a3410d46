/** `webtracker/webtracker.py`: the batch pipeline. Records are grouped
    into sessions by key, sessions are processed and handed to their
    users, and the users are split round-robin among worker processes. */
module Pipeline {
  import opened Wrappers
  import opened Seqs
  import opened ODict
  import opened Logs
  import opened SessionModel
  import opened DownloadModel
  import Chaining
  import opened OverlapModel
  import opened UserModel

  /** `lst[k::n]` for a positive step `n`. */
  function Stride<T>(lst: seq<T>, k: nat, n: nat): seq<T>
    requires 0 < n
    decreases |lst| - k
  {
    if |lst| <= k then [] else [lst[k]] + Stride(lst, k + n, n)
  }

  lemma Shift(k: int, m: int, n: int)
    ensures (k + n) + (m - 1) * n == k + m * n
  {
  }

  /** Entry `m` of `lst[k::n]` is `lst[k + m * n]`, and the slice stops at
      the first such position past the end. */
  lemma {:induction false} StrideEntries<T>(lst: seq<T>, k: nat, n: nat)
    requires 0 < n
    ensures forall m :: 0 <= m < |Stride(lst, k, n)| ==>
      k + m * n < |lst| && Stride(lst, k, n)[m] == lst[k + m * n]
    ensures |lst| <= k + |Stride(lst, k, n)| * n
    decreases |lst| - k
  {
    if k < |lst| {
      var r := Stride(lst, k, n);
      var rest := Stride(lst, k + n, n);
      StrideEntries(lst, k + n, n);
      forall m | 0 <= m < |r| ensures k + m * n < |lst| && r[m] == lst[k + m * n] {
        if 0 < m {
          Shift(k, m, n);
          assert r[m] == rest[m - 1];
        }
      }
      Shift(k, |r|, n);
    }
  }

  /** `get_sublists(lst, n)`: the `n` lists `lst[k::n]` for `k` in
      `range(n)`; for `n == 0` the range is empty. */
  function GetSublists<T>(lst: seq<T>, n: nat): (r: seq<seq<T>>)
    ensures |r| == n
  {
    seq(n, k requires 0 <= k < n => Stride(lst, k, n))
  }

  /** Entry `m` of sublist `k` is element `k + m * n`, and every sublist
      runs to the end of the list. */
  lemma SublistEntries<T>(lst: seq<T>, n: nat, k: nat)
    requires k < n
    ensures forall m :: 0 <= m < |GetSublists(lst, n)[k]| ==>
      k + m * n < |lst| && GetSublists(lst, n)[k][m] == lst[k + m * n]
    ensures |lst| <= k + |GetSublists(lst, n)[k]| * n
  {
    StrideEntries(lst, k, n);
  }

  lemma MulCancel(a: int, c: int, n: nat)
    requires c * n < a * n
    ensures c < a
  {
  }

  lemma AddOne(q: int, n: int)
    ensures (q + 1) * n == q * n + n
  {
  }

  /** Euclidean division has one quotient and one remainder. */
  lemma DivModUnique(i: int, n: nat, k: int, m: int)
    requires 0 <= k < n && i == k + m * n
    ensures i % n == k && i / n == m
  {
    var q, s := i / n, i % n;
    assert i == s + q * n;
    AddOne(q, n);
    MulCancel(q + 1, m, n);
    AddOne(m, n);
    MulCancel(m + 1, q, n);
  }

  /** Every element lands in some sublist: element `i` is entry `i / n` of
      sublist `i % n`. */
  lemma SublistsCover<T>(lst: seq<T>, n: nat, i: nat)
    requires 0 < n && i < |lst|
    ensures i / n < |GetSublists(lst, n)[i % n]|
    ensures GetSublists(lst, n)[i % n][i / n] == lst[i]
  {
    var k, m := i % n, i / n;
    SublistEntries(lst, n, k);
    assert i == k + m * n;
    MulCancel(|GetSublists(lst, n)[k]|, m, n);
  }

  /** ... and in no other place: a sublist entry that holds element `i` is
      entry `i / n` of sublist `i % n`. */
  lemma SublistsUnique<T>(lst: seq<T>, n: nat, i: nat, k: nat, m: nat)
    requires k < n
    requires m < |GetSublists(lst, n)[k]| && k + m * n == i
    ensures i < |lst| && GetSublists(lst, n)[k][m] == lst[i]
    ensures k == i % n && m == i / n
  {
    SublistEntries(lst, n, k);
    DivModUnique(i, n, k, m);
  }

  /** Sublist sizes differ by at most one, earlier sublists being the
      longer ones. */
  lemma SublistSizes<T>(lst: seq<T>, n: nat, k: nat, l: nat)
    requires k < l < n
    ensures |GetSublists(lst, n)[l]| <= |GetSublists(lst, n)[k]| <= |GetSublists(lst, n)[l]| + 1
  {
    var a, b := |GetSublists(lst, n)[k]|, |GetSublists(lst, n)[l]|;
    SublistEntries(lst, n, k);
    SublistEntries(lst, n, l);
    if 0 < b {
      assert l + (b - 1) * n < |lst| <= k + a * n;
      MulCancel(a, b - 1, n);
    }
    if 0 < a {
      assert k + (a - 1) * n < |lst| <= l + b * n;
      AddOne(b, n);
      MulCancel(b + 1, a - 1, n);
    }
  }

  /** The `sessions` dict of `generate_user_logs`: a record whose key is
      missing raises KeyError inside the `try`, and the handler creates the
      session before adding the record. */
  function SessionDict(logs: seq<Log>): Dict<SessionKey, Building>
  {
    GroupFold(logs, KeyOf, NewSession, AddLog)
  }

  lemma IndexOfNoDup<T>(s: seq<T>, i: nat)
    requires NoDup(s) && i < |s|
    ensures IndexOf(s, s[i]) == i
  {
  }

  /** The dict has one entry per distinct key, in order of first appearance,
      and the session of a key holds exactly that key's records, in input
      order. */
  lemma SessionDictSpec(logs: seq<Log>)
    ensures Keys(SessionDict(logs)) == Dedup(Project(logs, KeyOf))
    ensures forall i :: 0 <= i < |SessionDict(logs)| ==>
      SessionDict(logs)[i].1 == AddAll(NewSession(SessionDict(logs)[i].0), FilterKey(logs, KeyOf, SessionDict(logs)[i].0))
  {
    var d := SessionDict(logs);
    GroupFoldSpec(logs, KeyOf, NewSession, AddLog);
    forall i | 0 <= i < |d|
      ensures d[i].1 == AddAll(NewSession(d[i].0), FilterKey(logs, KeyOf, d[i].0))
    {
      var k := d[i].0;
      assert Keys(d)[i] == k;
      IndexOfNoDup(Keys(d), i);
      assert k in Project(logs, KeyOf);
      assert Get(d, k) == Some(d[i].1);
    }
  }

  /** The per-session steps of `generate_user_logs`, session by session.
      `Process` raises only IndexError, and only for a session without
      records, so the loop raises exactly when some session is empty. */
  function ProcessAll(bs: seq<Building>): (r: Fallible<seq<Session>>)
    requires forall i :: 0 <= i < |bs| ==> Valid(bs[i])
    ensures r.Ok? <==> forall i :: 0 <= i < |bs| ==> 0 < |bs[i].logs|
    ensures r.Raises? ==> r.error == IndexError
    ensures r.Ok? ==> |r.value| == |bs| && forall i :: 0 <= i < |bs| ==> Process(bs[i]) == Ok(r.value[i])
  {
    if forall i :: 0 <= i < |bs| ==> 0 < |bs[i].logs| then
      Ok(seq(|bs|, i requires 0 <= i < |bs| => Process(bs[i]).value))
    else Raises(IndexError)
  }

  lemma SessionDictValid(logs: seq<Log>)
    ensures forall i :: 0 <= i < |Values(SessionDict(logs))| ==>
      Valid(Values(SessionDict(logs))[i]) && 0 < |Values(SessionDict(logs))[i].logs|
  {
    var d := SessionDict(logs);
    SessionDictSpec(logs);
    forall i | 0 <= i < |d| ensures Valid(d[i].1) && 0 < |d[i].1.logs| {
      var k := d[i].0;
      assert k in Project(logs, KeyOf) by {
        assert Keys(d)[i] == k;
      }
      KeySessionValid(logs, k);
    }
  }

  /** The session of a key that occurs in the records is valid and holds at
      least one record. */
  lemma KeySessionValid(logs: seq<Log>, k: SessionKey)
    requires k in Project(logs, KeyOf)
    ensures Valid(AddAll(NewSession(k), FilterKey(logs, KeyOf, k)))
    ensures 0 < |AddAll(NewSession(k), FilterKey(logs, KeyOf, k)).logs|
  {
    var j :| 0 <= j < |logs| && Project(logs, KeyOf)[j] == k;
    assert logs[j] in FilterKey(logs, KeyOf, k);
    AddAllFixesFields(k, FilterKey(logs, KeyOf, k));
  }

  /** The processed sessions of `generate_user_logs`, in dict order. */
  function Sessions(logs: seq<Log>): Fallible<seq<Session>>
  {
    SessionDictValid(logs);
    ProcessAll(Values(SessionDict(logs)))
  }

  function SessionId(s: Session): SessionKey { s.id }

  /** Session `i` is the processed session of the `i`-th distinct key. */
  lemma SessionsAre(logs: seq<Log>)
    ensures Sessions(logs).Ok?
    ensures |Sessions(logs).value| == |SessionDict(logs)|
    ensures forall i :: 0 <= i < |SessionDict(logs)| ==>
      var k := SessionDict(logs)[i].0;
      k in Project(logs, KeyOf) && Valid(AddAll(NewSession(k), FilterKey(logs, KeyOf, k))) &&
      Process(AddAll(NewSession(k), FilterKey(logs, KeyOf, k))) == Ok(Sessions(logs).value[i])
  {
    var d := SessionDict(logs);
    SessionDictSpec(logs);
    SessionDictValid(logs);
    forall i | 0 <= i < |d| ensures d[i].0 in Project(logs, KeyOf) {
      assert Keys(d)[i] == d[i].0;
    }
  }

  /** `ss` splits `logs` by key: one session per distinct key, in order of
      the key's first appearance, holding exactly that key's records. */
  predicate SplitsByKey(logs: seq<Log>, ss: seq<Session>)
  {
    Project(ss, SessionId) == Dedup(Project(logs, KeyOf)) &&
    forall i :: 0 <= i < |ss| ==> multiset(ss[i].logs) == multiset(FilterKey(logs, KeyOf, ss[i].id))
  }

  /** Sessions carrying the attributes of their own key. */
  predicate Keyed(ss: seq<Session>)
  {
    forall i :: 0 <= i < |ss| ==> SessionKey(ss[i].userid, ss[i].url, ss[i].tabid) == ss[i].id
  }

  /** Grouping never raises; the sessions split the records by key and are
      processed with their key's attributes. */
  lemma GroupSessions(logs: seq<Log>)
    ensures Sessions(logs).Ok?
    ensures SplitsByKey(logs, Sessions(logs).value)
    ensures Keyed(Sessions(logs).value) && AllProcessed(Sessions(logs).value)
  {
    var d := SessionDict(logs);
    SessionDictSpec(logs);
    SessionsAre(logs);
    var ss := Sessions(logs).value;
    forall i | 0 <= i < |ss|
      ensures ss[i].id == Keys(d)[i]
      ensures multiset(ss[i].logs) == multiset(FilterKey(logs, KeyOf, ss[i].id))
      ensures Processed(ss[i]) && SessionKey(ss[i].userid, ss[i].url, ss[i].tabid) == ss[i].id
    {
      SessionFromKey(logs, d[i].0, ss[i]);
    }
    assert Project(ss, SessionId) == Keys(d);
  }

  /** Every record goes into exactly one session, the one for its key: a
      session holds a record exactly when the record has the session's
      key, no two sessions share a key, and every record's key has a
      session. */
  lemma LogInOneSession(logs: seq<Log>, ss: seq<Session>, l: Log)
    requires SplitsByKey(logs, ss)
    ensures forall i :: 0 <= i < |ss| ==> (l in ss[i].logs <==> l in logs && KeyOf(l) == ss[i].id)
    ensures NoDup(Project(ss, SessionId))
    ensures l in logs ==> KeyOf(l) in Project(ss, SessionId)
  {
    forall i | 0 <= i < |ss|
      ensures l in ss[i].logs <==> l in logs && KeyOf(l) == ss[i].id
    {
      SessionHolds(logs, ss[i], l);
    }
    if l in logs {
      var j :| 0 <= j < |logs| && logs[j] == l;
      assert Project(logs, KeyOf)[j] == KeyOf(l);
    }
  }

  lemma SessionHolds(logs: seq<Log>, s: Session, l: Log)
    requires multiset(s.logs) == multiset(FilterKey(logs, KeyOf, s.id))
    ensures l in s.logs <==> l in logs && KeyOf(l) == s.id
  {
    FilterKeyMembers(logs, KeyOf, s.id);
    assert l in s.logs <==> l in multiset(s.logs);
  }

  lemma SessionFromKey(logs: seq<Log>, k: SessionKey, s: Session)
    requires k in Project(logs, KeyOf)
    requires Valid(AddAll(NewSession(k), FilterKey(logs, KeyOf, k)))
    requires Process(AddAll(NewSession(k), FilterKey(logs, KeyOf, k))) == Ok(s)
    ensures s.id == k
    ensures Processed(s) && SessionKey(s.userid, s.url, s.tabid) == k
    ensures multiset(s.logs) == multiset(FilterKey(logs, KeyOf, k))
  {
    var f := FilterKey(logs, KeyOf, k);
    KeyRecords(logs, k);
    ProcessedOfKey(k, f, s);
    FieldsOfKey(k, f, s);
  }

  lemma FieldsOfKey(k: SessionKey, f: seq<Log>, s: Session)
    requires 0 < |f| && forall i :: 0 <= i < |f| ==> KeyOf(f[i]) == k
    requires Process(AddAll(NewSession(k), f)) == Ok(s)
    ensures s.id == k && SessionKey(s.userid, s.url, s.tabid) == k
    ensures multiset(s.logs) == multiset(f)
  {
    ProcessSession(k, f);
  }

  /** A key that occurs in the records has at least one record, and all
      its records carry it. */
  lemma KeyRecords(logs: seq<Log>, k: SessionKey)
    requires k in Project(logs, KeyOf)
    ensures 0 < |FilterKey(logs, KeyOf, k)|
    ensures forall i :: 0 <= i < |FilterKey(logs, KeyOf, k)| ==> KeyOf(FilterKey(logs, KeyOf, k)[i]) == k
  {
    var j :| 0 <= j < |logs| && Project(logs, KeyOf)[j] == k;
    FilterKeyMembers(logs, KeyOf, k);
    assert logs[j] in FilterKey(logs, KeyOf, k);
  }

  lemma ProcessedOfKey(k: SessionKey, f: seq<Log>, s: Session)
    requires 0 < |f| && forall i :: 0 <= i < |f| ==> KeyOf(f[i]) == k
    requires Process(AddAll(NewSession(k), f)) == Ok(s)
    ensures Processed(s)
  {
    ProcessIsProcessed(k, f);
  }

  function SessionUserid(s: Session): string { s.userid }

  function UserId(u: User): string { u.id }

  /** The `user_dct` loop: every user id gets a User holding the sessions
      whose `userid` equals it, in session order. */
  function AssignUsers(ids: seq<string>, ss: seq<Session>): (us: seq<User>)
    ensures Project(us, UserId) == ids
    ensures forall i :: 0 <= i < |us| ==> us[i].sessions == FilterKey(ss, SessionUserid, ids[i])
  {
    seq(|ids|, i requires 0 <= i < |ids| => User(ids[i], FilterKey(ss, SessionUserid, ids[i])))
  }

  /** The grouping part of `generate_user_logs`: the user ids in order of
      first appearance, each with its sessions. */
  function GenerateUserLogs(logs: seq<Log>): Fallible<seq<User>>
  {
    var ss := Sessions(logs);
    if ss.Raises? then Raises(ss.error)
    else Ok(AssignUsers(Dedup(Project(logs, UserOf)), ss.value))
  }

  /** A session's user id is the user id of a record. */
  lemma SessionUserLogged(logs: seq<Log>, ss: seq<Session>, s: Session)
    requires SplitsByKey(logs, ss) && Keyed(ss)
    requires s in ss
    ensures s.userid in Project(logs, UserOf)
  {
    var t :| 0 <= t < |ss| && ss[t] == s;
    assert Project(ss, SessionId)[t] == s.id;
    var j :| 0 <= j < |logs| && Project(logs, KeyOf)[j] == s.id;
    assert Project(logs, UserOf)[j] == s.userid;
  }

  /** A logged user id has a session. */
  lemma LoggedUserHasSession(logs: seq<Log>, ss: seq<Session>, id: string)
    requires SplitsByKey(logs, ss) && Keyed(ss)
    requires id in Project(logs, UserOf)
    ensures 0 < |FilterKey(ss, SessionUserid, id)|
  {
    var j :| 0 <= j < |logs| && Project(logs, UserOf)[j] == id;
    assert Project(logs, KeyOf)[j] == KeyOf(logs[j]);
    assert KeyOf(logs[j]) in Project(ss, SessionId);
    var t :| 0 <= t < |ss| && Project(ss, SessionId)[t] == KeyOf(logs[j]);
    assert ss[t].id == KeyOf(logs[j]);
    assert SessionKey(ss[t].userid, ss[t].url, ss[t].tabid) == ss[t].id;
    assert SessionUserid(ss[t]) == id;
    FilterKeyMembers(ss, SessionUserid, id);
    assert ss[t] in ss;
  }

  lemma FilterProcessed(ss: seq<Session>, id: string)
    requires AllProcessed(ss)
    ensures AllProcessed(FilterKey(ss, SessionUserid, id))
  {
    var f := FilterKey(ss, SessionUserid, id);
    forall k | 0 <= k < |f| ensures Processed(f[k]) {
      assert f[k] in f;
      var t :| 0 <= t < |ss| && ss[t] == f[k];
    }
  }

  /** The sessions are partitioned among the users: user ids are distinct
      and in order of first appearance in the records, a user holds a
      session exactly when the session carries its id, every session's id
      is a user's, and every user has at least one processed session. */
  lemma UsersPartitionSessions(logs: seq<Log>, ss: seq<Session>)
    requires SplitsByKey(logs, ss) && Keyed(ss) && AllProcessed(ss)
    ensures var us := AssignUsers(Dedup(Project(logs, UserOf)), ss);
      NoDup(Project(us, UserId)) && FirstAppearanceOrder(Project(us, UserId), Project(logs, UserOf))
    ensures var us := AssignUsers(Dedup(Project(logs, UserOf)), ss);
      forall i, s :: 0 <= i < |us| ==> (s in us[i].sessions <==> s in ss && s.userid == us[i].id)
    ensures var us := AssignUsers(Dedup(Project(logs, UserOf)), ss);
      forall s :: s in ss ==> s.userid in Project(us, UserId)
    ensures var us := AssignUsers(Dedup(Project(logs, UserOf)), ss);
      forall i :: 0 <= i < |us| ==> 0 < |us[i].sessions| && AllProcessed(us[i].sessions)
  {
    var ids := Dedup(Project(logs, UserOf));
    var us := AssignUsers(ids, ss);
    forall i | 0 <= i < |us|
      ensures forall s :: s in us[i].sessions <==> s in ss && s.userid == us[i].id
      ensures 0 < |us[i].sessions| && AllProcessed(us[i].sessions)
    {
      assert Project(us, UserId)[i] == us[i].id == ids[i];
      FilterKeyMembers(ss, SessionUserid, ids[i]);
      LoggedUserHasSession(logs, ss, ids[i]);
      FilterProcessed(ss, ids[i]);
    }
    forall s | s in ss ensures s.userid in Project(us, UserId) {
      SessionUserLogged(logs, ss, s);
    }
  }

  /** Grouping the records never raises and yields the users of
      `AssignUsers` over the sessions of `GroupSessions`. */
  lemma GenerateUserLogsOk(logs: seq<Log>)
    ensures GenerateUserLogs(logs).Ok?
    ensures Sessions(logs).Ok?
    ensures GenerateUserLogs(logs).value == AssignUsers(Dedup(Project(logs, UserOf)), Sessions(logs).value)
  {
    GroupSessions(logs);
  }

  /** A user once `generate_user_info` has run. An attribute whose guard
      fails keeps its initial value: `None` for the figures and the empty
      list for `urls_in_dloads` and `overlaps`. (`avg_num_urls_per_overlaps`
      starts as an empty list in the source; it is `None` here.) */
  datatype UserInfo = UserInfo(
    user: User,
    logs: seq<Log>,
    browsingTime: int,
    starts: seq<Log>,
    urlsVisited: seq<string>,
    dloads: seq<Download>,
    avgDloadTimePerSession: seq<(SessionKey, real)>,
    avgSessionTime: Option<real>,
    percentDloads: Option<real>,
    urlsInDloads: seq<string>,
    overlaps: seq<Overlap>,
    percentOverlaps: Option<real>,
    avgOverlapTime: Option<real>,
    avgNumUrlsPerOverlaps: Option<real>,
    avgTimeBetweenOverlaps: Option<real>,
    avgTimeBeforeOverlapStarts: Option<real>)

  /** The getters every user gets, `get_logs` to `get_avg_session_time`. */
  function BaseInfo(u: User): (r: Fallible<UserInfo>)
    ensures r.Raises? <==> |AllLogs(u)| == 0
    ensures r.Ok? ==> r.value.user == u && r.value.logs == GetLogs(u) && r.value.dloads == GetDloads(u)
    ensures r.Ok? ==> r.value.percentDloads.None? && r.value.urlsInDloads == [] && r.value.overlaps == []
  {
    var logs := GetLogs(u);
    var bt := BrowsingTime(logs);
    if bt.Raises? then Raises(bt.error)
    else
      Ok(UserInfo(u, logs, bt.value, GetStarts(u), UrlsVisited(u), GetDloads(u),
                  AvgDloadTimePerSession(u.sessions), AvgSessionTime(u.sessions),
                  None, [], [], None, None, None, None, None))
  }

  /** The block guarded by `0 < len(user.dloads)`, without the loop over
      `dload.get_duration()`. */
  function DownloadPart(info: UserInfo): (r: Fallible<UserInfo>)
    ensures |info.dloads| == 0 ==> r == Ok(info)
    ensures 0 < |info.dloads| ==> (r.Raises? <==> |info.logs| == 0)
    ensures r.Ok? && 0 < |info.dloads| ==>
      r.value == info.(percentDloads := Some(PercentDloads(|info.dloads|, |info.logs|).value),
                       urlsInDloads := UrlsInDloads(info.dloads),
                       overlaps := GetOverlaps(info.user))
  {
    if |info.dloads| == 0 then Ok(info)
    else
      var pd := PercentDloads(|info.dloads|, |info.logs|);
      if pd.Raises? then Raises(pd.error)
      else
        Ok(info.(percentDloads := Some(pd.value),
                 urlsInDloads := UrlsInDloads(info.dloads),
                 overlaps := GetOverlaps(info.user)))
  }

  /** Overlaps as `get_overlaps` builds them: the time before the overlap
      starts is set and positive and no url is counted. */
  predicate OverlapsFormed(ov: seq<Overlap>)
  {
    forall k :: 0 <= k < |ov| ==>
      ov[k].timeBeforeOverlapStarts.Some? && ov[k].timeBeforeOverlapStarts.value > 0 && ov[k].numUrls == 0
  }

  /** The block guarded by `0 < len(user.overlaps)`, without the calls of
      `get_overlapping_url` and `get_overlapped_url`; the per-overlap
      getters are part of `Build`. With records and well-formed overlaps
      it sets every overlap figure, the average time between overlaps
      only with two overlaps or more. */
  function OverlapPart(info: UserInfo): (r: Fallible<UserInfo>)
    ensures |info.overlaps| == 0 ==> r == Ok(info)
    ensures 0 < |info.overlaps| && 0 < |info.logs| && OverlapsFormed(info.overlaps) ==>
      r.Ok? && r.value.overlaps == info.overlaps && r.value.logs == info.logs &&
      r.value.dloads == info.dloads && r.value.user == info.user &&
      r.value.percentDloads == info.percentDloads && r.value.urlsInDloads == info.urlsInDloads
    ensures 0 < |info.overlaps| && 0 < |info.logs| && OverlapsFormed(info.overlaps) ==>
      r.Ok? &&
      r.value.percentOverlaps.Some? && 0.0 < r.value.percentOverlaps.value &&
      r.value.avgOverlapTime.Some? &&
      r.value.avgNumUrlsPerOverlaps == Some(0.0) &&
      r.value.avgTimeBeforeOverlapStarts.Some? && 0.0 < r.value.avgTimeBeforeOverlapStarts.value &&
      (r.value.avgTimeBetweenOverlaps.Some? <==> 2 <= |info.overlaps|)
  {
    var ov := info.overlaps;
    if |ov| == 0 then Ok(info)
    else
      var po := PercentOverlaps(ov, |info.logs|);
      var ao := AvgOverlapTime(ov);
      var an := AvgNumUrlsPerOverlaps(ov);
      var ab := AvgTimeBeforeOverlapStarts(ov);
      // `ao` and `an` raise only without overlaps
      if po.Raises? then Raises(po.error)
      else if ab.Raises? then Raises(ab.error)
      else
        Ok(info.(percentOverlaps := Some(po.value),
                 avgOverlapTime := Some(ao.value),
                 avgNumUrlsPerOverlaps := Some(an.value),
                 avgTimeBetweenOverlaps := AvgTimeBetweenOverlaps(ov),
                 avgTimeBeforeOverlapStarts := Some(ab.value)))
  }

  /** `generate_user_info` for one user with the calls of methods that do
      not exist removed: the download figures only with a download, the
      overlap figures only with an overlap. */
  function GenerateUserInfo(u: User): Fallible<UserInfo>
  {
    var b := BaseInfo(u);
    if b.Raises? then b
    else
      var d := DownloadPart(b.value);
      if d.Raises? then d else OverlapPart(d.value)
  }

  /** `generate_user_info` for one user as written: `Download` has no
      `get_duration` and `Overlap` has no `get_overlapping_url`, so the
      first download, or the first overlap, raises AttributeError. */
  function GenerateUserInfoAsWritten(u: User): Fallible<UserInfo>
  {
    var b := BaseInfo(u);
    if b.Raises? then b
    else
      var d := DownloadPart(b.value);
      if d.Raises? then d
      else if 0 < |d.value.dloads| then Raises(AttributeError)
      else if 0 < |d.value.overlaps| then Raises(AttributeError)
      else Ok(d.value)
  }

  /** A user with a session has a record: processed sessions are never
      empty. */
  lemma UserHasLogs(u: User)
    requires 0 < |u.sessions| && AllProcessed(u.sessions)
    ensures 0 < |AllLogs(u)| && 0 < |GetLogs(u)|
  {
    var x := u.sessions[0].logs[0];
    assert x in SessionLogs(u.sessions)[0];
    FlattenMembership(SessionLogs(u.sessions), x);
  }

  /** As written, a user with a record raises AttributeError exactly when
      it has a download; without a download it agrees with the corrected
      `GenerateUserInfo`. */
  lemma AsWrittenRaisesOnDownload(u: User)
    requires 0 < |AllLogs(u)|
    ensures GenerateUserInfoAsWritten(u) == Raises(AttributeError) <==> 0 < |GetDloads(u)|
    ensures |GetDloads(u)| == 0 ==> GenerateUserInfoAsWritten(u) == GenerateUserInfo(u)
    ensures |GetDloads(u)| == 0 ==> GenerateUserInfoAsWritten(u).Ok?
  {
  }

  /** Every overlap `get_overlaps` finds has its time before the overlap
      starts set and positive, and no counted urls. */
  lemma OverlapsWellFormed(u: User)
    ensures OverlapsFormed(GetOverlaps(u))
  {
    var ds := GetDloads(u);
    var chains := Chaining.Overlaps(ds);
    forall k | 0 <= k < |chains|
      ensures ToOverlap(ds, chains[k]).timeBeforeOverlapStarts.Some?
      ensures ToOverlap(ds, chains[k]).timeBeforeOverlapStarts.value > 0
      ensures ToOverlap(ds, chains[k]).numUrls == 0
    {
      assert chains[k] in chains;
      OverlapFacts(ds, chains[k]);
    }
  }

  /** The figures every user gets, with the download block applied. */
  lemma DownloadStage(u: User)
    requires 0 < |u.sessions| && AllProcessed(u.sessions)
    ensures BaseInfo(u).Ok?
    ensures DownloadPart(BaseInfo(u).value).Ok?
    ensures var d := DownloadPart(BaseInfo(u).value).value;
      d.user == u && d.logs == GetLogs(u) && d.dloads == GetDloads(u) && 0 < |d.logs| &&
      OverlapsFormed(d.overlaps) && (0 < |d.overlaps| ==> 0 < |d.dloads|)
    ensures var d := DownloadPart(BaseInfo(u).value).value;
      (d.percentDloads.Some? <==> 0 < |d.dloads|) &&
      (d.percentDloads.Some? ==> 0.0 < d.percentDloads.value <= 100.0)
    ensures var d := DownloadPart(BaseInfo(u).value).value;
      (0 < |d.dloads| ==> d.urlsInDloads == UrlsInDloads(d.dloads) && d.overlaps == GetOverlaps(u)) &&
      (|d.dloads| == 0 ==> d.urlsInDloads == [] && d.overlaps == [])
  {
    UserHasLogs(u);
    OverlapsWellFormed(u);
    if 0 < |GetDloads(u)| {
      PercentDloadsBound(u);
    }
  }

  /** For a user with processed sessions the corrected `generate_user_info`
      never raises and sets the download figures exactly when the user has
      a download (the percentage then in (0, 100]) and the overlap figures
      exactly when it has an overlap, so no guarded division is by zero;
      the average time between overlaps needs two. */
  lemma GenerateUserInfoGuards(u: User)
    requires 0 < |u.sessions| && AllProcessed(u.sessions)
    ensures GenerateUserInfo(u).Ok?
    ensures var r := GenerateUserInfo(u).value;
      r.user == u && r.logs == GetLogs(u) && r.dloads == GetDloads(u)
    ensures var r := GenerateUserInfo(u).value;
      (r.percentDloads.Some? <==> 0 < |r.dloads|) &&
      (r.percentDloads.Some? ==> 0.0 < r.percentDloads.value <= 100.0) &&
      (0 < |r.overlaps| ==> 0 < |r.dloads|)
    ensures var r := GenerateUserInfo(u).value;
      (r.percentOverlaps.Some? <==> 0 < |r.overlaps|) &&
      (r.avgOverlapTime.Some? <==> 0 < |r.overlaps|) &&
      (r.avgNumUrlsPerOverlaps.Some? <==> 0 < |r.overlaps|) &&
      (r.avgTimeBeforeOverlapStarts.Some? <==> 0 < |r.overlaps|) &&
      (r.avgTimeBetweenOverlaps.Some? <==> 2 <= |r.overlaps|)
    ensures var r := GenerateUserInfo(u).value;
      (r.percentOverlaps.Some? ==> 0.0 < r.percentOverlaps.value) &&
      (r.avgTimeBeforeOverlapStarts.Some? ==> 0.0 < r.avgTimeBeforeOverlapStarts.value) &&
      (r.avgNumUrlsPerOverlaps.Some? ==> r.avgNumUrlsPerOverlaps.value == 0.0)
  {
    DownloadStage(u);
    var d := DownloadPart(BaseInfo(u).value).value;
    assert GenerateUserInfo(u) == OverlapPart(d);
  }

  /** `generate_user_info` over a list of users: the loop stops at the
      first user that raises. */
  function GenerateUserInfos(us: seq<User>): Fallible<seq<UserInfo>>
  {
    MapAll(us, GenerateUserInfo)
  }

  /** The whole corrected pipeline never raises: grouping the records
      yields users with processed sessions, and each of them gets its
      figures. */
  lemma PipelineOk(logs: seq<Log>)
    ensures GenerateUserLogs(logs).Ok?
    ensures GenerateUserInfos(GenerateUserLogs(logs).value).Ok?
  {
    GenerateUserLogsOk(logs);
    GroupSessions(logs);
    var ss := Sessions(logs).value;
    UsersPartitionSessions(logs, ss);
    var us := GenerateUserLogs(logs).value;
    forall i | 0 <= i < |us| ensures GenerateUserInfo(us[i]).Ok? {
      GenerateUserInfoGuards(us[i]);
    }
  }

  /** A session with a Started record directly followed by a Finished
      record gives its user a download. */
  lemma SessionPairGivesDownload(u: User, i: nat, p: nat)
    requires AllProcessed(u.sessions) && i < |u.sessions|
    requires IsPairAt(u.sessions[i].logs, p)
    ensures 0 < |GetDloads(u)|
  {
    var s := u.sessions[i];
    assert Processed(s);
    assert p in PairIndices(s.logs);
    var d := s.downloads[0];
    assert d in SessionDownloads(u.sessions)[i];
    FlattenMembership(SessionDownloads(u.sessions), d);
  }

  /** A Started record at time 0 and its Finished record at time 5, both
      for user "u" in tab 1 of "w". */
  const ExampleRecords: seq<Log> := [Log(0, "u", 1, "w", STARTED), Log(5, "u", 1, "w", FINISHED)]

  /** Two records of one session in time order are those records in that
      order. */
  lemma TwoOrdered(xs: seq<Log>, a: Log, b: Log)
    requires multiset(xs) == multiset{a, b} && a.timestamp < b.timestamp
    requires TimeOrdered(xs)
    ensures xs == [a, b]
  {
    assert |xs| == |multiset(xs)| == 2;
    assert xs[0] in multiset(xs) && xs[1] in multiset(xs);
    assert multiset(xs) == multiset{xs[0], xs[1]} by {
      assert xs == [xs[0], xs[1]];
    }
  }

  lemma DedupTwice<T>(x: T)
    ensures Dedup([x, x]) == [x]
  {
    assert [x, x][..1] == [x];
    assert [x][..0] == [];
  }

  lemma ExampleKeys()
    ensures Dedup(Project(ExampleRecords, KeyOf)) == [KeyOf(ExampleRecords[0])]
  {
    var logs := ExampleRecords;
    assert Project(logs, KeyOf) == [KeyOf(logs[0]), KeyOf(logs[0])];
    DedupTwice(KeyOf(logs[0]));
  }

  lemma ExampleUserIds()
    ensures Dedup(Project(ExampleRecords, UserOf)) == ["u"]
  {
    var logs := ExampleRecords;
    assert Project(logs, UserOf) == ["u", "u"];
    DedupTwice("u");
  }

  lemma ExampleFilter()
    ensures FilterKey(ExampleRecords, KeyOf, KeyOf(ExampleRecords[0])) == ExampleRecords
  {
    var logs := ExampleRecords;
    var k := KeyOf(logs[0]);
    assert logs[..1] == [logs[0]];
    assert [logs[0]][..0] == [];
    assert FilterKey(logs[..1], KeyOf, k) == [logs[0]];
  }

  /** The example records form one session, which holds both records in
      time order. */
  lemma ExampleSession(logs: seq<Log>, ss: seq<Session>)
    requires logs == ExampleRecords
    requires SplitsByKey(logs, ss) && AllProcessed(ss)
    ensures |ss| == 1 && ss[0].logs == logs
  {
    ExampleKeys();
    ExampleFilter();
    assert |Project(ss, SessionId)| == 1;
    assert ss[0].id == KeyOf(logs[0]);
    assert multiset(ss[0].logs) == multiset{logs[0], logs[1]};
    assert Processed(ss[0]);
    TwoOrdered(ss[0].logs, logs[0], logs[1]);
  }

  /** ... and the pipeline gives that session to the one user "u". */
  lemma ExampleUser(logs: seq<Log>, ss: seq<Session>, us: seq<User>)
    requires logs == ExampleRecords
    requires SplitsByKey(logs, ss) && Keyed(ss) && AllProcessed(ss)
    requires us == AssignUsers(Dedup(Project(logs, UserOf)), ss)
    ensures |us| == 1 && AllProcessed(us[0].sessions) && 0 < |us[0].sessions|
    ensures IsPairAt(us[0].sessions[0].logs, 0)
  {
    assert |us| == 1 by {
      ExampleUserIds();
    }
    assert 0 < |us[0].sessions| && AllProcessed(us[0].sessions) && us[0].sessions[0] in ss by {
      UsersPartitionSessions(logs, ss);
    }
    assert |ss| == 1 && ss[0].logs == logs by {
      ExampleSession(logs, ss);
    }
    OnlyMember(ss, us[0].sessions[0]);
    assert IsPairAt(ExampleRecords, 0);
  }

  lemma OnlyMember<T>(s: seq<T>, x: T)
    requires |s| == 1 && x in s
    ensures x == s[0]
  {
  }

  /** On these two records the pipeline yields one user, and
      `generate_user_info` as written raises AttributeError for it where
      the corrected one does not. */
  lemma ExampleRaisesAsWritten()
    ensures GenerateUserLogs(ExampleRecords).Ok?
    ensures |GenerateUserLogs(ExampleRecords).value| == 1
    ensures GenerateUserInfoAsWritten(GenerateUserLogs(ExampleRecords).value[0]) == Raises(AttributeError)
    ensures GenerateUserInfo(GenerateUserLogs(ExampleRecords).value[0]).Ok?
  {
    var logs := ExampleRecords;
    GenerateUserLogsOk(logs);
    GroupSessions(logs);
    var ss := Sessions(logs).value;
    var us := GenerateUserLogs(logs).value;
    ExampleUser(logs, ss, us);
    var u := us[0];
    SessionPairGivesDownload(u, 0, 0);
    UserHasLogs(u);
    AsWrittenRaisesOnDownload(u);
    GenerateUserInfoGuards(u);
  }

  const MS_PER_HOUR: real := 3600000.0
  const MS_PER_MINUTE: real := 60000.0
  const MS_PER_SECOND: real := 1000.0

  /** `ms_to_hours`, `ms_to_minutes` and `ms_to_seconds` with `unit` the
      milliseconds per hour, minute or second: `None` and 0 are both falsy
      and give `None`; any other value is divided by the unit (the
      rounding to two places is left out). */
  function MsTo(ms: Option<real>, unit: real): (r: Option<real>)
    requires 0.0 < unit
    ensures r.None? <==> ms.None? || ms.value == 0.0
    ensures r.Some? ==> r.value * unit == ms.value && r.value != 0.0
  {
    if ms.None? || ms.value == 0.0 then None else Some(ms.value / unit)
  }

  /** Converting a non-zero amount of units to milliseconds and back gives
      the amount. */
  lemma MsToInverse(x: real, unit: real)
    requires 0.0 < unit && x != 0.0
    ensures MsTo(Some(x * unit), unit) == Some(x)
  {
  }

  /** A value of the per-url dicts: a download count, a time, or the text
      "yes". */
  datatype Metric = Count(n: int) | Time(t: real) | Text(s: string)

  /** Python truthiness of a metric. */
  predicate Truthy(m: Metric)
  {
    match m
    case Count(n) => n != 0
    case Time(t) => t != 0.0
    case Text(s) => s != ""
  }

  predicate TruthyItem(e: (string, Metric)) { Truthy(e.1) }

  function ItemUrl(e: (string, Metric)): string { e.0 }

  function ItemMetric(e: (string, Metric)): Metric { e.1 }

  function EmptyRow(url: string): seq<Metric> { [] }

  /** `url_rows[key].append(value)`. */
  function AppendMetric(row: seq<Metric>, e: (string, Metric)): seq<Metric> { row + [e.1] }

  /** The truthy items of the dicts, dict by dict. */
  function TruthyItems(ds: seq<Dict<string, Metric>>): seq<(string, Metric)>
  {
    Filter(Flatten(ds), TruthyItem)
  }

  /** The `url_rows` of `get_url_axes` over the dicts in the order given:
      a url gets a row on its first truthy value. */
  function UrlAxes(ds: seq<Dict<string, Metric>>): Dict<string, seq<Metric>>
  {
    GroupFold(TruthyItems(ds), ItemUrl, EmptyRow, AppendMetric)
  }

  lemma {:induction false} FoldAppendMetric(xs: seq<(string, Metric)>)
    ensures Fold([], xs, AppendMetric) == Project(xs, ItemMetric)
    decreases |xs|
  {
    if 0 < |xs| {
      FoldAppendMetric(xs[..|xs| - 1]);
    }
  }

  /** The urls with a row are those with a truthy value, in order of first
      appearance; a url's row is its truthy values in dict order, so a
      zero or empty value never appears and a url whose values are all
      falsy has no row. */
  lemma UrlAxesSpec(ds: seq<Dict<string, Metric>>)
    ensures Keys(UrlAxes(ds)) == Dedup(Project(TruthyItems(ds), ItemUrl))
    ensures forall url :: (Get(UrlAxes(ds), url) ==
                           if url in Project(TruthyItems(ds), ItemUrl)
                           then Some(Project(FilterKey(TruthyItems(ds), ItemUrl, url), ItemMetric))
                           else None)
    ensures forall url :: Get(UrlAxes(ds), url).Some? ==>
      forall k :: 0 <= k < |Get(UrlAxes(ds), url).value| ==> Truthy(Get(UrlAxes(ds), url).value[k])
  {
    var items := TruthyItems(ds);
    GroupFoldSpec(items, ItemUrl, EmptyRow, AppendMetric);
    forall url | url in Project(items, ItemUrl)
      ensures Get(UrlAxes(ds), url) == Some(Project(FilterKey(items, ItemUrl, url), ItemMetric))
    {
      FoldAppendMetric(FilterKey(items, ItemUrl, url));
    }
    forall url | Get(UrlAxes(ds), url).Some?
      ensures forall k :: 0 <= k < |Get(UrlAxes(ds), url).value| ==> Truthy(Get(UrlAxes(ds), url).value[k])
    {
      var f := FilterKey(items, ItemUrl, url);
      forall k | 0 <= k < |f| ensures Truthy(f[k].1) {
        assert f[k] in f;
      }
    }
  }
}
