/** The draft `v7.py`: the same `Sessions` as `v8.py` (modelled in `V8`),
    and a report that prints the groups holding at least two records. */
module V7 {
  import opened Seqs
  import opened Logs
  import V8

  predicate Long(e: V8.Entry) { 2 <= |e.logs| }

  predicate Single(e: V8.Entry) { |e.logs| == 1 }

  /** `avg_dload_time_each_user`: the groups it prints, in order. */
  function AvgDloadTimeEachUser(es: seq<V8.Entry>): (r: seq<V8.Entry>)
    ensures forall e :: e in r <==> e in es && 2 <= |e.logs|
  {
    Filter(es, Long)
  }

  /** Over non-empty groups, the records printed and the single-record
      groups skipped account for every record. */
  lemma {:induction false} LongAndSingle(es: seq<V8.Entry>)
    requires forall e | e in es :: 0 < |e.logs|
    ensures |V8.AllEntryLogs(Filter(es, Long))| + |Filter(es, Single)| == |V8.AllEntryLogs(es)|
    decreases |es|
  {
    if 0 < |es| {
      var n := |es| - 1;
      assert es == es[..n] + [es[n]];
      LongAndSingle(es[..n]);
      FilterAppend(es[..n], [es[n]], Long);
      FilterAppend(es[..n], [es[n]], Single);
      V8.AllEntryLogsAppend(es[..n], [es[n]]);
      V8.AllEntryLogsAppend(Filter(es[..n], Long), Filter([es[n]], Long));
      assert V8.AllEntryLogs([es[n]]) == es[n].logs by {
        assert V8.EntryLogs([es[n]]) == [es[n].logs];
        assert Flatten([es[n].logs]) == Flatten<Log>([]) + es[n].logs;
      }
      assert V8.AllEntryLogs([]) == [] by {
        assert V8.EntryLogs([]) == [];
      }
    }
  }

  /** Every record is printed unless it is alone in its url and tab group:
      the printed records plus the skipped groups number the records. */
  lemma PrintedRecords(logs: seq<Log>)
    ensures |V8.AllEntryLogs(AvgDloadTimeEachUser(V8.SortedLst(logs)))| +
            |Filter(V8.SortedLst(logs), Single)| == |logs|
  {
    var es := V8.SortedLst(logs);
    V8.SortedLstSpec(logs);
    LongAndSingle(es);
    assert |V8.AllEntryLogs(es)| == |multiset(V8.AllEntryLogs(es))|;
  }
}
