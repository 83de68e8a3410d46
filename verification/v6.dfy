/** The draft `v6.py`: closed-tab records are removed, the rest are grouped
    by user, regrouped by url and tab, and each user's records are sorted. */
module V6 {
  import opened Wrappers
  import opened Seqs
  import opened Order
  import opened Sorting
  import opened ODict
  import opened Logs

  predicate Open(l: Log) { l.status != CLOSED }

  /** One `for log_str in lst: if closed: lst.remove(log_str)` pass, the
      iterator standing at position `i`. Records define no equality, so
      `remove` drops the very record at `i`; the rest shifts left and the
      iterator, moving on to `i + 1`, never looks at the record that took
      its place. */
  function RemovePass(s: seq<Log>, i: nat): seq<Log>
    decreases |s|, |s| - i
  {
    if |s| <= i then s
    else if s[i].status == CLOSED then RemovePass(s[..i] + s[i + 1..], i + 1)
    else RemovePass(s, i + 1)
  }

  lemma RemoveAtMultiset(s: seq<Log>, i: nat)
    requires i < |s|
    ensures multiset(s[..i] + s[i + 1..]) + multiset{s[i]} == multiset(s)
  {
    assert s == s[..i] + [s[i]] + s[i + 1..];
  }

  /** A pass removes closed records only: the open records and their order
      are untouched, and nothing is added. */
  lemma {:induction false} RemovePassKeepsOpen(s: seq<Log>, i: nat)
    ensures Filter(RemovePass(s, i), Open) == Filter(s, Open)
    ensures multiset(RemovePass(s, i)) <= multiset(s)
    ensures |RemovePass(s, i)| <= |s|
    decreases |s|, |s| - i
  {
    if |s| <= i {
    } else if s[i].status == CLOSED {
      FilterRemoveAt(s, i, Open);
      RemoveAtMultiset(s, i);
      RemovePassKeepsOpen(s[..i] + s[i + 1..], i + 1);
    } else {
      RemovePassKeepsOpen(s, i + 1);
    }
  }

  /** A pass that meets a closed record at or after `i` removes at least
      one record. */
  lemma {:induction false} RemovePassProgress(s: seq<Log>, i: nat)
    ensures (exists j :: i <= j < |s| && s[j].status == CLOSED) ==> |RemovePass(s, i)| < |s|
    decreases |s|, |s| - i
  {
    if |s| <= i {
    } else if s[i].status == CLOSED {
      RemovePassKeepsOpen(s[..i] + s[i + 1..], i + 1);
    } else {
      RemovePassProgress(s, i + 1);
      if exists j :: i <= j < |s| && s[j].status == CLOSED {
        var j :| i <= j < |s| && s[j].status == CLOSED;
        assert i + 1 <= j;
      }
    }
  }

  /** On closed records only, a pass from `i` keeps half of the rest:
      every removal makes the iterator skip one record. */
  lemma {:induction false} AllClosedPass(s: seq<Log>, i: nat)
    requires i <= |s| + 1
    requires forall j :: 0 <= j < |s| ==> s[j].status == CLOSED
    ensures |RemovePass(s, i)| == (|s| + i) / 2
    ensures forall j :: 0 <= j < |RemovePass(s, i)| ==> RemovePass(s, i)[j].status == CLOSED
    decreases |s| - i + 1
  {
    if i < |s| {
      var t := s[..i] + s[i + 1..];
      forall j | 0 <= j < |t| ensures t[j].status == CLOSED {
        if j < i {
          assert t[j] == s[j];
        } else {
          assert t[j] == s[j + 1];
        }
      }
      AllClosedPass(t, i + 1);
    }
  }

  /** `remove_closed_tabs`: three passes. */
  function RemoveClosedTabs(s: seq<Log>): seq<Log>
  {
    RemovePass(RemovePass(RemovePass(s, 0), 0), 0)
  }

  /** The three passes keep every open record in order, remove only closed
      records, and remove at least one when there is one; on closed
      records only they keep an eighth of them, so eight closed records
      leave one behind. */
  lemma RemoveClosedTabsSpec(s: seq<Log>)
    ensures Filter(RemoveClosedTabs(s), Open) == Filter(s, Open)
    ensures multiset(RemoveClosedTabs(s)) <= multiset(s)
    ensures (exists j :: 0 <= j < |s| && s[j].status == CLOSED) ==> |RemoveClosedTabs(s)| < |s|
    ensures (forall j :: 0 <= j < |s| ==> s[j].status == CLOSED) ==> |RemoveClosedTabs(s)| == |s| / 8
  {
    var a := RemovePass(s, 0);
    var b := RemovePass(a, 0);
    RemovePassKeepsOpen(s, 0);
    RemovePassKeepsOpen(a, 0);
    RemovePassKeepsOpen(b, 0);
    RemovePassProgress(s, 0);
    if forall j :: 0 <= j < |s| ==> s[j].status == CLOSED {
      AllClosedPass(s, 0);
      AllClosedPass(a, 0);
      AllClosedPass(b, 0);
    }
  }

  const ClosedRecord := Log(0, "u", 1, "w", CLOSED)

  /** Eight closed records: one survives `remove_closed_tabs`. */
  lemma EightClosedLeaveOne()
    ensures var r := RemoveClosedTabs(seq(8, _ => ClosedRecord));
      |r| == 1 && r[0].status == CLOSED
  {
    var s := seq(8, _ => ClosedRecord);
    RemoveClosedTabsSpec(s);
    var a := RemovePass(s, 0);
    AllClosedPass(s, 0);
    AllClosedPass(a, 0);
    AllClosedPass(RemovePass(a, 0), 0);
  }

  /** What `remove_closed_tabs` is meant to do: drop every closed record and
      keep the rest in order. */
  function RemoveAllClosed(s: seq<Log>): (r: seq<Log>)
    ensures forall j :: 0 <= j < |r| ==> r[j].status != CLOSED
    ensures forall l :: l in r <==> l in s && l.status != CLOSED
  {
    var r := Filter(s, Open);
    assert forall j :: 0 <= j < |r| ==> r[j] in r;
    r
  }

  /** The three passes agree with the intended removal on the open records,
      and agree with it completely exactly when no closed record is left. */
  lemma RemoveClosedTabsVersusIntended(s: seq<Log>)
    ensures Filter(RemoveClosedTabs(s), Open) == RemoveAllClosed(s)
    ensures RemoveClosedTabs(s) == RemoveAllClosed(s) <==>
      forall j :: 0 <= j < |RemoveClosedTabs(s)| ==> RemoveClosedTabs(s)[j].status != CLOSED
  {
    var r := RemoveClosedTabs(s);
    RemoveClosedTabsSpec(s);
    if forall j :: 0 <= j < |r| ==> r[j].status != CLOSED {
      FilterAll(r, Open);
    }
  }

  lemma {:induction false} FilterAll<T>(s: seq<T>, p: T -> bool)
    requires forall j :: 0 <= j < |s| ==> p(s[j])
    ensures Filter(s, p) == s
    decreases |s|
  {
    if 0 < |s| {
      FilterAll(s[..|s| - 1], p);
    }
  }

  /** `set_unique_userids`: records grouped by user id. */
  function UniqueUserids(logs: seq<Log>): Dict<string, seq<Log>>
  {
    GroupBy(logs, UserOf)
  }

  /** Users appear in the order of their first record, and each user's list
      holds that user's records in input order. */
  lemma UniqueUseridsSpec(logs: seq<Log>)
    ensures Keys(UniqueUserids(logs)) == Dedup(Project(logs, UserOf))
    ensures FirstAppearanceOrder(Keys(UniqueUserids(logs)), Project(logs, UserOf))
    ensures forall u ::
      Get(UniqueUserids(logs), u) ==
      (if u in Project(logs, UserOf) then Some(FilterKey(logs, UserOf, u)) else None)
  {
    GroupBySpec(logs, UserOf);
  }

  function UrlTab(l: Log): (string, int) { (l.url, l.tabid) }

  /** `set_unique_sessions`: the user groups, one after the other, regrouped
      by url and tab only. */
  function UniqueSessions(byUser: Dict<string, seq<Log>>): Dict<(string, int), seq<Log>>
  {
    GroupBy(Flatten(Values(byUser)), UrlTab)
  }

  /** `g` holds one group per key occurring in `logs`, in some order, and
      each group is a rearrangement of the records with that key. */
  ghost predicate GroupsOf<T, K(!new)>(g: Dict<K, seq<T>>, logs: seq<T>, key: T -> K)
  {
    NoDup(Keys(g)) &&
    (forall k :: k in Keys(g) <==> k in Project(logs, key)) &&
    (forall k :: k in Project(logs, key) ==>
       Get(g, k).Some? && multiset(Get(g, k).value) == multiset(FilterKey(logs, key, k)))
  }

  /** The session groups are keyed by url and tab alone: there is one group
      per url and tab that occurs, and it holds every record with that url
      and tab, whichever user logged it. */
  lemma UniqueSessionsSpec(logs: seq<Log>)
    ensures GroupsOf(UniqueSessions(UniqueUserids(logs)), logs, UrlTab)
  {
    var r := Flatten(Values(UniqueUserids(logs)));
    GroupByPermutation(logs, UserOf);
    Regroup(r, logs, UrlTab);
  }

  /** Grouping a rearrangement of `logs` gives the groups of `logs`, each
      rearranged. */
  lemma Regroup<T, K(!new)>(r: seq<T>, logs: seq<T>, key: T -> K)
    requires multiset(r) == multiset(logs)
    ensures GroupsOf(GroupBy(r, key), logs, key)
  {
    var g := GroupBy(r, key);
    GroupBySpec(r, key);
    forall k ensures k in Keys(g) <==> k in Project(logs, key) {
      PermutationSameKey(r, logs, key, k);
      PermutationSameKey(logs, r, key, k);
    }
    forall k | k in Project(logs, key)
      ensures Get(g, k).Some? && multiset(Get(g, k).value) == multiset(FilterKey(logs, key, k))
    {
      PermutationSameKey(logs, r, key, k);
      var v := FilterKey(r, key, k);
      assert Get(g, k) == Some(v);
      FilterKeyPermutation(r, logs, key, k);
      assert multiset(v) == multiset(FilterKey(logs, key, k));
    }
  }

  lemma PermutationSameKey<T, K>(a: seq<T>, b: seq<T>, key: T -> K, k: K)
    requires multiset(a) == multiset(b)
    ensures k in Project(a, key) ==> k in Project(b, key)
  {
    if k in Project(a, key) {
      var i :| 0 <= i < |a| && key(a[i]) == k;
      assert a[i] in multiset(b);
      var j :| 0 <= j < |b| && b[j] == a[i];
      assert Project(b, key)[j] == k;
    }
  }

  /** Two users' records with the same url and tab land in one group. */
  lemma SessionsSharedAcrossUsers(logs: seq<Log>, a: Log, b: Log)
    requires a in logs && b in logs && a.url == b.url && a.tabid == b.tabid
    ensures var g := UniqueSessions(UniqueUserids(logs));
      Get(g, UrlTab(a)).Some? && a in Get(g, UrlTab(a)).value && b in Get(g, UrlTab(a)).value
  {
    UniqueSessionsSpec(logs);
    var k := UrlTab(a);
    FilterKeyMembers(logs, UrlTab, k);
    assert a in multiset(FilterKey(logs, UrlTab, k));
    assert b in multiset(FilterKey(logs, UrlTab, k));
  }

  /** Sort key `(url, tabid, status, timestamp)` of `set_sorted`. */
  function UrlTabStatusTimeKey(l: Log): seq<Atom>
  {
    [Str(l.url), Int(l.tabid), Int(l.status), Int(l.timestamp)]
  }

  /** `set_sorted`: each user's records sorted by url, tab, status and
      timestamp. */
  function SetSorted(byUser: Dict<string, seq<Log>>): (r: Dict<string, seq<Log>>)
    ensures Keys(r) == Keys(byUser)
    ensures forall i :: 0 <= i < |r| ==>
      multiset(r[i].1) == multiset(byUser[i].1) && SortedByKey(r[i].1, UrlTabStatusTimeKey)
  {
    seq(|byUser|, i requires 0 <= i < |byUser| => (byUser[i].0, SortByKey(byUser[i].1, UrlTabStatusTimeKey)))
  }

  /** Within one url and tab the sorted records run by status first: a
      lower status comes first even when its timestamp is later, and
      timestamps only order records of equal status. */
  lemma StatusBeforeTime(logs: seq<Log>)
    requires SortedByKey(logs, UrlTabStatusTimeKey)
    ensures forall i, j :: 0 <= i < j < |logs| && logs[i].url == logs[j].url && logs[i].tabid == logs[j].tabid ==>
      logs[i].status < logs[j].status ||
      (logs[i].status == logs[j].status && logs[i].timestamp <= logs[j].timestamp)
  {
    forall i, j | 0 <= i < j < |logs| && logs[i].url == logs[j].url && logs[i].tabid == logs[j].tabid
      ensures logs[i].status < logs[j].status ||
        (logs[i].status == logs[j].status && logs[i].timestamp <= logs[j].timestamp)
    {
      var p := [Str(logs[i].url), Int(logs[i].tabid)];
      var a := [Int(logs[i].status), Int(logs[i].timestamp)];
      var b := [Int(logs[j].status), Int(logs[j].timestamp)];
      assert UrlTabStatusTimeKey(logs[i]) == p + a;
      assert UrlTabStatusTimeKey(logs[j]) == p + b;
      KeyLeCommonPrefix(p, a, b);
      IntKey2Le(logs[i].status, logs[i].timestamp, logs[j].status, logs[j].timestamp);
    }
  }

  /** The draft's grouping after the intended removal of closed records. */
  function V6Sorted(logs: seq<Log>): Dict<string, seq<Log>>
  {
    SetSorted(UniqueUserids(RemoveAllClosed(logs)))
  }

  /** Each user's sorted list holds exactly that user's open records. */
  lemma V6SortedSpec(logs: seq<Log>)
    ensures Keys(V6Sorted(logs)) == Dedup(Project(RemoveAllClosed(logs), UserOf))
    ensures forall i :: 0 <= i < |V6Sorted(logs)| ==>
      multiset(V6Sorted(logs)[i].1) == multiset(FilterKey(RemoveAllClosed(logs), UserOf, V6Sorted(logs)[i].0))
  {
    var open := RemoveAllClosed(logs);
    var g := UniqueUserids(open);
    GroupBySpec(open, UserOf);
    forall i | 0 <= i < |g| ensures g[i].1 == FilterKey(open, UserOf, g[i].0) {
      assert Keys(g)[i] == g[i].0;
      GetAt(g, i);
    }
  }
}
