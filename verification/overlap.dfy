/** `webtracker/overlap.py`: an overlap is an anchoring download, the
    downloads found to overlap it, and the download that ends the chain,
    together with the values its getters derive. */
module OverlapModel {
  import opened Wrappers
  import opened Order
  import opened Seqs
  import opened Sorting
  import opened DownloadModel

  /** An Overlap once its getters have run. `overlappingStarts` holds the
      collected downloads in insertion order. */
  datatype Overlap = Overlap(
    start: Download,
    overlappingStarts: seq<Download>,
    end: Download,
    overlappingUrl: string,
    overlapStart: int,
    overlapEnd: int,
    duration: int,
    timeBeforeOverlapStarts: Option<int>,
    urls: seq<string>,
    numUrls: int)

  function EndOf(d: Download): int { d.end() }

  function UrlOfDownload(d: Download): string { d.url }

  /** Sort key `(end,)` of `get_overlap_end`. */
  function EndKey(d: Download): seq<Atom> { [Int(d.end())] }

  function EndAbove(v: int): Download -> bool { (d: Download) => d.end() > v }

  function EndAtLeast(v: int): Download -> bool { (d: Download) => d.end() >= v }

  /** `sorted(members, key=end)[-2].end`: the second greatest end counting
      repeats. At most one member ends later, and at least two end at that
      time or later. */
  function SecondLargestEnd(ms: seq<Download>): (v: int)
    requires 2 <= |ms|
    ensures |Filter(ms, EndAbove(v))| <= 1
    ensures 2 <= |Filter(ms, EndAtLeast(v))|
  {
    var sorted := SortByKey(ms, EndKey);
    var v := sorted[|sorted| - 2].end();
    SortedEndCounts(sorted);
    FilterPermutationLength(sorted, ms, EndAbove(v));
    FilterPermutationLength(sorted, ms, EndAtLeast(v));
    v
  }

  lemma SortedEndCounts(sorted: seq<Download>)
    requires 2 <= |sorted| && SortedByKey(sorted, EndKey)
    ensures |Filter(sorted, EndAbove(sorted[|sorted| - 2].end()))| <= 1
    ensures 2 <= |Filter(sorted, EndAtLeast(sorted[|sorted| - 2].end()))|
  {
    SortedAboveCount(sorted);
    SortedAtLeastCount(sorted);
  }

  lemma SortedAboveCount(sorted: seq<Download>)
    requires 2 <= |sorted| && SortedByKey(sorted, EndKey)
    ensures |Filter(sorted, EndAbove(sorted[|sorted| - 2].end()))| <= 1
  {
    var n := |sorted|;
    var v := sorted[n - 2].end();
    var init := sorted[..n - 1];
    assert sorted == init + [sorted[n - 1]];
    var f := Filter(init, EndAbove(v));
    if f != [] {
      assert f[0] in f;
      var i :| 0 <= i < |init| && init[i] == f[0];
      if i < n - 2 {
        IntKey1Le(sorted[i].end(), v);
      }
    }
    FilterAppend(init, [sorted[n - 1]], EndAbove(v));
  }

  lemma SortedAtLeastCount(sorted: seq<Download>)
    requires 2 <= |sorted| && SortedByKey(sorted, EndKey)
    ensures 2 <= |Filter(sorted, EndAtLeast(sorted[|sorted| - 2].end()))|
  {
    var n := |sorted|;
    var v := sorted[n - 2].end();
    IntKey1Le(v, sorted[n - 1].end());
    var head := sorted[..n - 2];
    var tail := [sorted[n - 2], sorted[n - 1]];
    assert sorted == head + tail;
    FilterAppend(head, tail, EndAtLeast(v));
    assert Filter(tail, EndAtLeast(v)) == tail by {
      assert tail[..1] == [sorted[n - 2]];
      assert Filter(tail[..1], EndAtLeast(v)) == Filter([], EndAtLeast(v)) + [sorted[n - 2]];
    }
  }

  /** The members' urls in member order. The comprehension tests each url
      against `self._urls`, which is still the empty list while it is
      evaluated, so nothing is filtered out. */
  function Urls(ms: seq<Download>): (r: seq<string>)
    ensures |r| == |ms|
    ensures forall k :: 0 <= k < |ms| ==> r[k] == ms[k].url
  {
    Project(ms, UrlOfDownload)
  }

  /** The constructor reads `overlapping_starts[1].url`, so fewer than two
      members raise IndexError. Otherwise the getters called by
      `generate_user_info` fill in the derived values; `get_num_urls`
      assigns nothing, so `num_urls` keeps its initial 0. */
  function Build(start: Download, ms: seq<Download>, end: Download): (r: Fallible<Overlap>)
    ensures r.Raises? <==> |ms| < 2
    ensures r.Raises? ==> r.error == IndexError
    ensures r.Ok? ==> r.value.start == start && r.value.overlappingStarts == ms && r.value.end == end
    ensures r.Ok? ==> r.value.duration == r.value.overlapEnd - r.value.overlapStart
    ensures r.Ok? ==> r.value.numUrls == 0
  {
    if |ms| < 2 then Raises(IndexError)
    else
      var overlapStart := ms[1].start();
      var overlapEnd := end.end() - SecondLargestEnd(ms);
      var timeBefore := if 2 <= |ms| then Some(overlapStart - start.start()) else None;
      Ok(Overlap(start, ms, end, ms[1].url, overlapStart, overlapEnd, overlapEnd - overlapStart,
                 timeBefore, Urls(ms), 0))
  }

  /** The values of a built overlap: the overlapping url and the overlap
      start are the second member's, the overlap end is the terminator's
      end minus the second greatest member end, and the time before the
      overlap starts is always set since there are two members. */
  lemma BuildValues(start: Download, ms: seq<Download>, end: Download)
    requires 2 <= |ms|
    ensures var o := Build(start, ms, end).value;
      o.overlappingUrl == ms[1].url && o.overlapStart == ms[1].start() &&
      o.overlapEnd == end.end() - SecondLargestEnd(ms) &&
      o.timeBeforeOverlapStarts == Some(ms[1].start() - start.start()) &&
      o.urls == Urls(ms)
  {
  }

  /** When the members all start after the anchor starts and the terminator
      ends no earlier than any member, the time before the overlap starts
      is positive and the overlap end is non-negative. */
  lemma BuildSigns(start: Download, ms: seq<Download>, end: Download)
    requires 2 <= |ms|
    requires forall k :: 0 <= k < |ms| ==> start.start() < ms[k].start() && ms[k].end() <= end.end()
    ensures Build(start, ms, end).value.timeBeforeOverlapStarts.value > 0
    ensures Build(start, ms, end).value.overlapEnd >= 0
  {
    var v := SecondLargestEnd(ms);
    var f := Filter(ms, EndAtLeast(v));
    assert f[0] in f;
    var i :| 0 <= i < |ms| && ms[i] == f[0];
  }

  /** Two members from the same url give that url twice. */
  lemma UrlsKeepDuplicates(d: Download, e: Download)
    requires d.url == e.url
    ensures Urls([d, e]) == [d.url, d.url]
    ensures !NoDup(Urls([d, e]))
  {
    var r := Urls([d, e]);
    assert r[0] == d.url && r[1] == e.url;
  }
}
