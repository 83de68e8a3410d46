/** A parsed log line and the rules every version applies to a time-ordered
    list of them.

    The log record has the fields of `webtracker/log.py:6-11`. The
    session identity is the structural triple (userid, url, tabid) instead
    of the MD5 digest of their concatenation. */
module Logs {
  import opened Order
  import Sorting

  const CLOSED: int := 0
  const STARTED: int := 1
  const FINISHED: int := 2

  datatype Log = Log(timestamp: int, userid: string, tabid: int, url: string, status: int)

  datatype SessionKey = SessionKey(userid: string, url: string, tabid: int)

  function KeyOf(l: Log): SessionKey
  {
    SessionKey(l.userid, l.url, l.tabid)
  }

  function UserOf(l: Log): string { l.userid }

  function UrlOf(l: Log): string { l.url }

  /** Sort key `(timestamp,)`. */
  function TimeKey(l: Log): seq<Atom> { [Int(l.timestamp)] }

  /** Sort key `(userid, url, tabid, timestamp)`. */
  function SessionTimeKey(l: Log): seq<Atom>
  {
    [Str(l.userid), Str(l.url), Int(l.tabid), Int(l.timestamp)]
  }

  /** Sort key `(status,)`. */
  function StatusKey(l: Log): seq<Atom> { [Int(l.status)] }

  /** Logs ordered by timestamp. */
  predicate TimeOrdered(logs: seq<Log>)
  {
    forall i, j :: 0 <= i < j < |logs| ==> logs[i].timestamp <= logs[j].timestamp
  }

  lemma TimeKeySorted(logs: seq<Log>)
    ensures Sorting.SortedByKey(logs, TimeKey) <==> TimeOrdered(logs)
  {
    forall i, j | 0 <= i < j < |logs|
      ensures KeyLe(TimeKey(logs[i]), TimeKey(logs[j])) <==> logs[i].timestamp <= logs[j].timestamp
    {
      IntKey1Le(logs[i].timestamp, logs[j].timestamp);
    }
  }

  /** Within one session the first three key components are equal, so the
      session sort key orders exactly by timestamp. */
  lemma SessionTimeKeySorted(logs: seq<Log>, k: SessionKey)
    requires forall i :: 0 <= i < |logs| ==> KeyOf(logs[i]) == k
    ensures Sorting.SortedByKey(logs, SessionTimeKey) <==> TimeOrdered(logs)
  {
    var p := [Str(k.userid), Str(k.url), Int(k.tabid)];
    forall i, j | 0 <= i < j < |logs|
      ensures KeyLe(SessionTimeKey(logs[i]), SessionTimeKey(logs[j])) <==> logs[i].timestamp <= logs[j].timestamp
    {
      assert SessionTimeKey(logs[i]) == p + [Int(logs[i].timestamp)];
      assert SessionTimeKey(logs[j]) == p + [Int(logs[j].timestamp)];
      KeyLeCommonPrefix(p, [Int(logs[i].timestamp)], [Int(logs[j].timestamp)]);
      IntKey1Le(logs[i].timestamp, logs[j].timestamp);
    }
  }

  /** A Started record immediately followed by a Finished record. */
  predicate IsPairAt(logs: seq<Log>, i: int)
  {
    0 <= i && i + 1 < |logs| && logs[i].status == STARTED && logs[i + 1].status == FINISHED
  }

  /** The positions `index` visited by
          for index, log in enumerate(logs):
              try: if 1 == logs[index].status and 2 == logs[index + 1].status: ...
              except: continue
      from `start` on; the lookup past the end at the last index raises
      IndexError, which is swallowed. */
  function PairsFrom(logs: seq<Log>, start: nat): (r: seq<nat>)
    ensures forall k :: 0 <= k < |r| ==> start <= r[k] && IsPairAt(logs, r[k])
    ensures forall i :: start <= i && IsPairAt(logs, i) ==> i in r
    ensures forall k, l :: 0 <= k < l < |r| ==> r[k] + 2 * (l - k) <= r[l]
    decreases |logs| - start
  {
    if start >= |logs| then []
    else if start + 1 == |logs| then []
    else
      var rest := PairsFrom(logs, start + 1);
      if IsPairAt(logs, start) then
        assert 0 < |rest| ==> start + 2 <= rest[0] by {
          if 0 < |rest| {
            assert IsPairAt(logs, rest[0]);
          }
        }
        [start] + rest
      else rest
  }

  /** The pair positions of `get_downloads`, guarded by `2 <= len(logs)`:
      exactly the positions of a Started record directly followed by a
      Finished record. */
  function PairIndices(logs: seq<Log>): (r: seq<nat>)
    ensures forall k :: 0 <= k < |r| ==> IsPairAt(logs, r[k])
    ensures forall i :: IsPairAt(logs, i) ==> i in r
  {
    if |logs| < 2 then [] else PairsFrom(logs, 0)
  }

  /** The pair positions ascend and no record belongs to two pairs. */
  lemma PairsApart(logs: seq<Log>)
    ensures var r := PairIndices(logs);
      forall k, l :: 0 <= k < l < |r| ==> r[k] + 2 * (l - k) <= r[l]
  {
  }

  /** Pairs use disjoint records, so there are at most half as many pairs as
      records. */
  lemma PairCountBound(logs: seq<Log>)
    ensures 2 * |PairIndices(logs)| <= |logs|
  {
    var r := PairIndices(logs);
    if 1 < |r| {
      assert r[0] + 2 * (|r| - 1) <= r[|r| - 1] by {
        PairsApart(logs);
      }
      assert IsPairAt(logs, r[|r| - 1]);
    } else if |r| == 1 {
      assert IsPairAt(logs, r[0]);
    }
  }
}
