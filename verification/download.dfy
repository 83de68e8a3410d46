/** `webtracker/download.py`: a download is the closed interval between a
    Started record and the Finished record that follows it. Its `start` and
    `end` are by construction the timestamps of those two records. */
module DownloadModel {
  import opened Logs

  datatype Download = Download(url: string, sessionId: SessionKey, startLog: Log, endLog: Log)
  {
    function start(): int { startLog.timestamp }
    function end(): int { endLog.timestamp }
  }

  /** The right operand of `in`: Python accepts any object there. */
  datatype Operand = DownloadOperand(d: Download) | OtherOperand

  /** `download in self` calls `self.__contains__(download)`. */
  predicate Contains(self: Download, other: Operand)
  {
    match other
    case DownloadOperand(d) =>
      (d.start() <= self.start() <= d.end()) || (d.start() <= self.end() <= d.end())
    case OtherOperand => false
  }

  /** The two closed intervals share an instant. */
  predicate Intersect(a: Download, b: Download)
  {
    a.start() <= b.end() && b.start() <= a.end()
  }

  /** An endpoint of `a` inside `b` means the intervals intersect. */
  lemma ContainsImpliesIntersect(a: Download, b: Download)
    requires a.start() <= a.end()
    requires Contains(a, DownloadOperand(b))
    ensures Intersect(a, b)
  {
  }

  /** Intersecting intervals are caught by the test in at least one
      direction: either an endpoint of `a` lies in `b` or one of `b` lies in
      `a`. Together with `ContainsImpliesIntersect` this characterises the
      symmetric closure of `__contains__` as interval intersection. */
  lemma IntersectImpliesContainsOneWay(a: Download, b: Download)
    requires a.start() <= a.end() && b.start() <= b.end()
    requires Intersect(a, b)
    ensures Contains(a, DownloadOperand(b)) || Contains(b, DownloadOperand(a))
  {
  }

  lemma ContainsReflexive(a: Download)
    requires a.start() <= a.end()
    ensures Contains(a, DownloadOperand(a))
  {
  }

  lemma OtherOperandNeverContained(a: Download)
    ensures !Contains(a, OtherOperand)
  {
  }

  /** The test is not symmetric: [0,10] does not lie in [2,5], while
      [2,5] lies in [0,10]. */
  lemma ContainsNotSymmetric()
    ensures exists a: Download, b: Download ::
      !Contains(a, DownloadOperand(b)) && Contains(b, DownloadOperand(a))
  {
    var k := SessionKey("u", "w", 1);
    var a := Download("w", k, Log(0, "u", 1, "w", STARTED), Log(10, "u", 1, "w", FINISHED));
    var b := Download("w", k, Log(2, "u", 1, "w", STARTED), Log(5, "u", 1, "w", FINISHED));
    assert !Contains(a, DownloadOperand(b)) && Contains(b, DownloadOperand(a));
  }
}
