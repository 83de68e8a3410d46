/** The overlap scan of `User.get_overlaps` (`webtracker/user.py:92-168`).

    The downloads of a user arrive sorted by `(end, start)`. Python keys
    its dictionaries by download objects, which are distinct by identity;
    here they are keyed by position in the download list. */
module Chaining {
  import opened Seqs
  import opened DownloadModel

  /** A detected overlap by position: the anchoring download
      (`starting_dload`), the collected downloads in insertion order
      (`list(total_overlaps.keys())`) and the terminating download. */
  datatype Chain = Chain(anchor: nat, members: seq<nat>, terminator: nat)

  /** The loop state: `idx`, the positions of `starting_dload` and
      `ending_dload`, `len(prev_overlaps)`, the keys of `total_overlaps`,
      the overlaps emitted so far, and whether the loop has broken out. */
  datatype Scan = Scan(idx: nat, si: nat, ei: nat, prev: nat, total: seq<nat>, chains: seq<Chain>, done: bool)

  /** Downloads in non-decreasing order of end, as `get_dloads` leaves them. */
  predicate EndSorted(ds: seq<Download>)
  {
    forall i, j :: 0 <= i < j < |ds| ==> ds[i].end() <= ds[j].end()
  }

  /** Positions `j >= from` with `lo < ds[j].start <= hi`, ascending. */
  function CollectFrom(ds: seq<Download>, from: nat, lo: int, hi: int): (r: seq<nat>)
    ensures forall j :: j in r <==> from <= j < |ds| && lo < ds[j].start() <= hi
    ensures forall k :: 0 <= k < |r| ==> from <= r[k]
    ensures forall a, b :: 0 <= a < b < |r| ==> r[a] < r[b]
    ensures |ds| <= from ==> r == []
    decreases |ds| - from
  {
    if |ds| <= from then []
    else
      var rest := CollectFrom(ds, from + 1, lo, hi);
      if lo < ds[from].start() <= hi then [from] + rest else rest
  }

  /** `curr_overlaps` of one pass: the downloads after `idx` that start
      strictly after `starting_dload` starts and no later than
      `ending_dload` ends. */
  function Pass(ds: seq<Download>, idx: nat, si: nat, ei: nat): (r: seq<nat>)
    requires si < |ds| && ei < |ds|
    ensures forall j :: j in r <==> idx < j < |ds| && ds[si].start() < ds[j].start() <= ds[ei].end()
    ensures NoDup(r)
    ensures |ds| <= idx + 1 ==> r == []
  {
    CollectFrom(ds, idx + 1, ds[si].start(), ds[ei].end())
  }

  /** `for d in curr: if d not in total: total[d] = d.end`. */
  function AddNew(total: seq<nat>, curr: seq<nat>): (r: seq<nat>)
    ensures forall j :: j in r <==> j in total || j in curr
    ensures NoDup(total) ==> NoDup(r)
    ensures |total| <= |r| && r[..|total|] == total
    decreases |curr|
  {
    if |curr| == 0 then total
    else
      var t := if curr[0] in total then total else total + [curr[0]];
      var r := AddNew(t, curr[1..]);
      assert curr == [curr[0]] + curr[1..];
      assert r[..|total|] == t[..|total|];
      r
  }

  /** Into an empty collection, a duplicate-free list is added as it is. */
  lemma {:induction false} AddNewDisjoint(total: seq<nat>, curr: seq<nat>)
    requires NoDup(curr)
    requires forall j | j in curr :: j !in total
    ensures AddNew(total, curr) == total + curr
    decreases |curr|
  {
    if |curr| > 0 {
      NoDupTail(curr, total);
      AddNewDisjoint(total + [curr[0]], curr[1..]);
      AddNewFreshHead(total, curr);
      ConsAfter(total, curr);
    }
  }

  lemma AddNewFreshHead(total: seq<nat>, curr: seq<nat>)
    requires 0 < |curr| && curr[0] !in total
    ensures AddNew(total, curr) == AddNew(total + [curr[0]], curr[1..])
  {
  }

  lemma ConsAfter<T>(total: seq<T>, curr: seq<T>)
    requires 0 < |curr|
    ensures total + [curr[0]] + curr[1..] == total + curr
  {
    assert curr == [curr[0]] + curr[1..];
  }

  lemma NoDupTail(curr: seq<nat>, total: seq<nat>)
    requires 0 < |curr| && NoDup(curr)
    requires forall j | j in curr :: j !in total
    ensures curr[0] !in total
    ensures NoDup(curr[1..])
    ensures forall j | j in curr[1..] :: j !in total + [curr[0]]
  {
    assert curr[0] in curr;
    var rest := curr[1..];
    forall a, b | 0 <= a < b < |rest| ensures rest[a] != rest[b] {
      assert rest[a] == curr[a + 1] && rest[b] == curr[b + 1];
    }
    forall j | j in rest ensures j !in total + [curr[0]] {
      var m :| 0 <= m < |rest| && rest[m] == j;
      assert curr[m + 1] == j;
      assert j in curr;
    }
  }

  /** The end times of the downloads at `idxs`. */
  function Ends(ds: seq<Download>, idxs: seq<nat>): (r: seq<int>)
    requires forall k :: 0 <= k < |idxs| ==> idxs[k] < |ds|
    ensures |r| == |idxs|
    ensures forall k :: 0 <= k < |idxs| ==> r[k] == ds[idxs[k]].end()
  {
    seq(|idxs|, k requires 0 <= k < |idxs| => ds[idxs[k]].end())
  }

  /** `target_dload`: the last of `idxs` with the greatest end. */
  function Target(ds: seq<Download>, idxs: seq<nat>): (t: nat)
    requires 0 < |idxs|
    requires forall k :: 0 <= k < |idxs| ==> idxs[k] < |ds|
    ensures t in idxs
  {
    idxs[LastIndexOfMax(Ends(ds, idxs))]
  }

  /** Every position in `idxs` comes after `anchor` and its download
      starts strictly after the anchor's. */
  predicate Follows(ds: seq<Download>, anchor: nat, idxs: seq<nat>)
    requires anchor < |ds|
  {
    forall k :: 0 <= k < |idxs| ==> anchor < idxs[k] < |ds| && ds[anchor].start() < ds[idxs[k]].start()
  }

  /** What every emitted overlap satisfies: at least two collected
      downloads, no download twice, each after the anchor in the list and
      starting strictly after it, and the terminator the last collected
      download with the greatest end. */
  predicate ChainOk(ds: seq<Download>, c: Chain)
  {
    c.anchor < |ds| && 2 <= |c.members| && NoDup(c.members) &&
    Follows(ds, c.anchor, c.members) &&
    c.terminator in c.members &&
    (forall k :: 0 <= k < |c.members| ==> ds[c.members[k]].end() <= ds[c.terminator].end()) &&
    (forall k :: IndexOf(c.members, c.terminator) < k < |c.members| ==>
       ds[c.members[k]].end() < ds[c.terminator].end())
  }

  lemma TargetOk(ds: seq<Download>, anchor: nat, members: seq<nat>)
    requires anchor < |ds| && 2 <= |members| && NoDup(members)
    requires Follows(ds, anchor, members)
    ensures ChainOk(ds, Chain(anchor, members, Target(ds, members)))
  {
    var e := Ends(ds, members);
    var p := LastIndexOfMax(e);
    assert IndexOf(members, members[p]) == p;
  }

  /** The emitted overlaps are well formed and their anchors ascend. */
  predicate ChainsOk(ds: seq<Download>, chains: seq<Chain>)
  {
    (forall c | c in chains :: ChainOk(ds, c)) &&
    (forall a, b :: 0 <= a < b < |chains| ==> chains[a].anchor < chains[b].anchor)
  }

  predicate AnchorsBefore(chains: seq<Chain>, si: nat)
  {
    forall c | c in chains :: c.anchor < si
  }

  predicate Inv(ds: seq<Download>, st: Scan)
  {
    0 < |ds| && st.idx < |ds| && st.si <= st.idx && st.ei <= st.idx &&
    (st.prev < 2 <==> |st.total| == 0) && (2 <= st.prev ==> 2 <= |st.total|) &&
    NoDup(st.total) && Follows(ds, st.si, st.total) &&
    ChainsOk(ds, st.chains) &&
    (!st.done ==> AnchorsBefore(st.chains, st.si)) &&
    |st.chains| <= st.idx && (2 <= st.prev && !st.done ==> |st.chains| < st.idx)
  }

  /** The state before the first pass, once `self._dloads[0]` exists. */
  function Initial(): Scan
  {
    Scan(0, 0, 0, 0, [], [], false)
  }

  /** One pass of the `while True` loop, branch by branch. A pass at the
      last index finds no later download, so the two branches that need a
      current collection of two never reach their `break`. */
  function Step(ds: seq<Download>, st: Scan): (r: Scan)
    requires Inv(ds, st) && !st.done
    ensures Inv(ds, r)
    ensures r.done || r.idx == st.idx + 1
    ensures r.done ==> r.idx == st.idx
  {
    var curr := Pass(ds, st.idx, st.si, st.ei);
    var last := st.idx == |ds| - 1;
    if st.prev < 2 && |curr| < 2 then
      // no previous and no current collection
      if last then st.(done := true)
      else
        StepSkip(ds, st, curr);
        st.(idx := st.idx + 1, si := st.idx + 1, ei := st.idx + 1, prev := |curr|)
    else if st.prev < 2 then
      // a new collection starts
      if last then assert false; st
      else
        StepGrow(ds, st, curr);
        st.(total := AddNew(st.total, curr), idx := st.idx + 1, ei := st.idx + 1, prev := |curr|)
    else if |curr| < 2 then
      // the collection ends: emit it
      StepEmit(ds, st, curr);
      var c := Chain(st.si, st.total, Target(ds, st.total));
      if last then st.(chains := st.chains + [c], done := true)
      else st.(chains := st.chains + [c], total := [], idx := st.idx + 1, si := st.idx + 1, prev := |curr|)
    else
      // the collection goes on
      if last then assert false; st
      else
        StepGrow(ds, st, curr);
        st.(total := AddNew(st.total, curr), idx := st.idx + 1, ei := st.idx + 1, prev := |curr|)
  }

  lemma StepSkip(ds: seq<Download>, st: Scan, curr: seq<nat>)
    requires Inv(ds, st) && !st.done && st.idx + 1 < |ds|
    requires st.prev < 2 && |curr| < 2
    ensures Inv(ds, st.(idx := st.idx + 1, si := st.idx + 1, ei := st.idx + 1, prev := |curr|))
  {
  }

  lemma StepGrow(ds: seq<Download>, st: Scan, curr: seq<nat>)
    requires Inv(ds, st) && !st.done && st.idx + 1 < |ds|
    requires curr == Pass(ds, st.idx, st.si, st.ei) && 2 <= |curr|
    ensures Inv(ds, st.(total := AddNew(st.total, curr), idx := st.idx + 1, ei := st.idx + 1, prev := |curr|))
  {
    GrowTotal(ds, st.si, st.idx, st.ei, st.total, curr);
  }

  /** Adding a pass's collection keeps the collected downloads distinct and
      after the anchor, and leaves at least two of them. */
  lemma GrowTotal(ds: seq<Download>, si: nat, idx: nat, ei: nat, total: seq<nat>, curr: seq<nat>)
    requires si <= idx && si < |ds| && ei < |ds|
    requires NoDup(total) && Follows(ds, si, total)
    requires curr == Pass(ds, idx, si, ei) && 2 <= |curr|
    requires |total| == 0 || 2 <= |total|
    ensures NoDup(AddNew(total, curr)) && Follows(ds, si, AddNew(total, curr))
    ensures 2 <= |AddNew(total, curr)|
  {
    if |total| == 0 {
      AddNewDisjoint(total, curr);
    }
    GrowFollows(ds, si, total, curr, AddNew(total, curr));
  }

  lemma GrowFollows(ds: seq<Download>, si: nat, total: seq<nat>, curr: seq<nat>, t: seq<nat>)
    requires si < |ds| && Follows(ds, si, total)
    requires forall j :: j in curr ==> si < j < |ds| && ds[si].start() < ds[j].start()
    requires forall j :: j in t ==> j in total || j in curr
    ensures Follows(ds, si, t)
  {
    forall k | 0 <= k < |t| ensures si < t[k] < |ds| && ds[si].start() < ds[t[k]].start() {
      var j := t[k];
      assert j in t;
      if j in total {
        FollowsMember(ds, si, total, j);
      }
    }
  }

  lemma FollowsMember(ds: seq<Download>, anchor: nat, idxs: seq<nat>, j: nat)
    requires anchor < |ds| && Follows(ds, anchor, idxs) && j in idxs
    ensures anchor < j < |ds| && ds[anchor].start() < ds[j].start()
  {
    var m :| 0 <= m < |idxs| && idxs[m] == j;
  }

  lemma StepEmit(ds: seq<Download>, st: Scan, curr: seq<nat>)
    requires Inv(ds, st) && !st.done && 2 <= st.prev && |curr| < 2
    ensures ChainOk(ds, Chain(st.si, st.total, Target(ds, st.total)))
    ensures Inv(ds, st.(chains := st.chains + [Chain(st.si, st.total, Target(ds, st.total))], done := true))
    ensures st.idx + 1 < |ds| ==>
      Inv(ds, st.(chains := st.chains + [Chain(st.si, st.total, Target(ds, st.total))], total := [],
                  idx := st.idx + 1, si := st.idx + 1, prev := |curr|))
  {
    var c := Chain(st.si, st.total, Target(ds, st.total));
    TargetOk(ds, st.si, st.total);
    ChainsExtend(ds, st, c);
    EmitLast(ds, st, c);
    if st.idx + 1 < |ds| {
      EmitNext(ds, st, c, |curr|);
    }
  }

  lemma EmitLast(ds: seq<Download>, st: Scan, c: Chain)
    requires Inv(ds, st) && !st.done && 2 <= st.prev && ChainsOk(ds, st.chains + [c])
    ensures Inv(ds, st.(chains := st.chains + [c], done := true))
  {
  }

  lemma EmitNext(ds: seq<Download>, st: Scan, c: Chain, p: nat)
    requires Inv(ds, st) && !st.done && 2 <= st.prev && ChainsOk(ds, st.chains + [c])
    requires c.anchor == st.si && st.idx + 1 < |ds| && p < 2
    ensures Inv(ds, st.(chains := st.chains + [c], total := [], idx := st.idx + 1, si := st.idx + 1, prev := p))
  {
  }

  lemma ChainsExtend(ds: seq<Download>, st: Scan, c: Chain)
    requires Inv(ds, st) && !st.done && ChainOk(ds, c) && c.anchor == st.si
    ensures ChainsOk(ds, st.chains + [c])
  {
    var cs := st.chains + [c];
    forall a, b | 0 <= a < b < |cs| ensures cs[a].anchor < cs[b].anchor {
      if b == |st.chains| {
        assert cs[a] in st.chains;
      }
    }
  }

  /** `ending_dload` is always a download at or before `idx`, and on
      downloads sorted by end its end never decreases from one pass to
      the next. */
  lemma StepReach(ds: seq<Download>, st: Scan)
    requires Inv(ds, st) && !st.done
    ensures Step(ds, st).ei <= Step(ds, st).idx
    ensures st.ei <= Step(ds, st).ei
    ensures EndSorted(ds) ==> ds[st.ei].end() <= ds[Step(ds, st).ei].end()
  {
  }

  /** Passes until the loop breaks. */
  function Run(ds: seq<Download>, st: Scan): (r: Scan)
    requires Inv(ds, st)
    ensures Inv(ds, r) && r.done
    decreases |ds| - st.idx, if st.done then 0 else 1
  {
    if st.done then st else Run(ds, Step(ds, st))
  }

  /** The overlaps `get_overlaps` appends. An empty download list raises
      IndexError at `self._dloads[0]`, which is swallowed: no overlaps.
      Every overlap is well formed, anchors ascend, there are fewer
      overlaps than downloads, and fewer than three downloads give none. */
  function Overlaps(ds: seq<Download>): (chains: seq<Chain>)
    ensures ChainsOk(ds, chains)
    ensures |chains| < |ds| || |ds| == 0
    ensures |ds| < 3 ==> chains == []
  {
    if |ds| == 0 then []
    else
      var chains := Run(ds, Initial()).chains;
      NoChainBelowThree(ds, chains);
      chains
  }

  lemma NoChainBelowThree(ds: seq<Download>, chains: seq<Chain>)
    requires ChainsOk(ds, chains)
    ensures |ds| < 3 ==> chains == []
  {
    if |ds| < 3 && 0 < |chains| {
      assert chains[0] in chains;
      ChainNeedsThree(ds, chains[0]);
    }
  }

  /** Fewer than three downloads can never overlap: an overlap needs an
      anchor and two distinct later downloads. */
  lemma ChainNeedsThree(ds: seq<Download>, c: Chain)
    requires ChainOk(ds, c)
    ensures c.anchor + 3 <= |ds|
  {
    assert c.members[0] in c.members && c.members[1] in c.members;
  }
}
