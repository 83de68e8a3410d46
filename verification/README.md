# webtracker in Dafny

This project models webtracker, a batch analyser of browser download logs.
Each log record carries a timestamp, a user id, a tab id, a url and a
status: 0 closed, 1 started, 2 finished.

## The `webtracker/` package

The package is the main version of the program.

- **Sessions.** Records are grouped into sessions by the triple
  (user, url, tab). A session sorts its records by time. Each Started
  record directly followed by a Finished record becomes a download, a
  closed interval `[start, end]`.
- **Users.** Sessions are handed to their users. Each user derives
  lists and figures from its sessions: its records, downloads, visited
  urls, percentages and averages.
- **Overlaps.** Each user runs an index-driven scan over its downloads,
  sorted by `(end, start)`. The scan chains downloads that start while an
  earlier one is still running into *overlaps*.
- **Totals.** Cross-user totals pool the overlaps and count downloads per
  url.
- **Work split.** The users are divided round-robin among worker
  processes.

## The single-file drafts

Each draft is modelled separately, as written, without reconciling it
with the package:

- the top-level `webtracker.py`: static overlaps and a per-user website
  list;
- `v9.py`: sessions in global start order and per-session averages;
- `v8.py` and `v7.py`: per-user `(url, tab)` groups sorted by time;
- `v6.py`: removal of closed records, sessions keyed by url and tab
  only, and a status-first sort;
- `v3.py`: per-url groups sorted by status.

## Module layout

| file | module | models |
|---|---|---|
| `wrappers.dfy` | `Wrappers` | `Option`, and `Fallible` for a Python exception |
| `order.dfy` | `Order` | Python's ordering of tuples of ints and strings |
| `sorting.dfy` | `Sorting` | `sorted(key=…)`: a stable sort by a tuple key |
| `odict.dfy` | `ODict` | insertion-ordered dicts; the `if k not in d: d[k] = [x] else: d[k].append(x)` grouping idiom |
| `seqs.dfy` | `Seqs` | sums, means, filters, projections, deduplication |
| `log.dfy` | `Logs` | the record, its session key, and the adjacent Started/Finished pairs |
| `download.dfy` | `DownloadModel` | `webtracker/download.py` |
| `session.dfy` | `SessionModel` | `webtracker/session.py` |
| `overlap.dfy` | `OverlapModel` | `webtracker/overlap.py` |
| `chaining.dfy` | `Chaining` | the scan of `User.get_overlaps` |
| `user.dfy` | `UserModel` | `webtracker/user.py` |
| `pipeline.dfy` | `Pipeline` | `webtracker/webtracker.py` |
| `totals.dfy` | `TotalsModel` | `webtracker/totals.py` |
| `legacy_tracker.dfy` | `LegacyTracker` | the top-level draft `webtracker.py` |
| `v9.dfy`, `v8.dfy`, `v7.dfy`, `v6.dfy`, `v3.dfy` | `V9` … `V3` | the numbered drafts |

## Modelling choices

**Numbers and errors**

- Timestamps and statuses are `int`.
- Averages and percentages are exact `real` divisions.
- A Python exception is a `Fallible` value naming the error.
- An attribute that keeps its initial `None` is an `Option`.

**Session identity**

- The session key is the structural triple (userid, url, tabid), not the
  MD5 digest of its concatenation.
- The digest would also identify ("a", "bc", 1) with ("ab", "c", 1). The
  model keeps those two sessions apart.

**Dicts**

- Python dicts keyed by download objects are keyed here by position in
  the download list.

**Reuse in the top-level draft**

- Its `Session.sort_logs`, `get_downloads` and `get_avg_dload_times`
  (`webtracker.py:172-197`) follow the package's session rules.
- Its `User.get_starts` (`webtracker.py:77-82`) and the user grouping of
  `generate_user_sessions` (`webtracker.py:441-468`) do too.
- So the draft reuses `SessionModel`, `UserModel` and `Pipeline`.

**Reuse in v7 and v8**

- `v7.py` and `v8.py` share `set_unique_userids` and `set_sorted_lst`,
  modelled once in `V8`.
- Both also share `set_unique_userids` with `v6.py`, modelled once as
  `V6.UniqueUserids`.

## Model

| member | source | states |
|---|---|---|
| Logs.PairIndices | webtracker/session.py:33-40 | The download positions are exactly the indices i where a Started record is directly followed by a Finished one. |
| Logs.PairsFrom | webtracker/session.py:33-40 | Scanning from a position finds every pair at or after it. The pairs found ascend, and no record belongs to two of them. |
| Logs.PairCountBound | webtracker/session.py:34-38 | There are at most half as many downloads as records. |
| Logs.SessionTimeKeySorted | webtracker.py:172-174 | Within one session, sorting by (userid, url, tabid, timestamp) is exactly sorting by timestamp. This holds for the draft and for the package. |
| DownloadModel.ContainsImpliesIntersect | webtracker/download.py:13-17 | If `__contains__` holds, the two closed intervals share an instant. |
| DownloadModel.IntersectImpliesContainsOneWay | webtracker/download.py:15-16 | Intersecting intervals pass the test in at least one direction. So the symmetric closure of `__contains__` is interval intersection. |
| DownloadModel.ContainsReflexive | webtracker/download.py:15 | A download with start <= end contains itself. |
| DownloadModel.OtherOperandNeverContained | webtracker/download.py:14-17 | An operand that is not a Download is never contained. |
| DownloadModel.ContainsNotSymmetric | webtracker/download.py:15 | The test is not symmetric: [0,10] is not in [2,5], while [2,5] is in [0,10]. |
| SessionModel.AddAllFixesFields | webtracker/session.py:26-31 | Records are only appended, in order. The attributes come from the first record with a non-empty userid, or from the last record when every userid is empty. |
| SessionModel.SameKeyFields | webtracker/session.py:27-30 | When all records share a key, the session's userid, url and tabid are that key. |
| SessionModel.SortLogsInSession | webtracker/session.py:20-21 | Sorting a session's records gives a permutation, non-decreasing in time. Records with equal timestamps keep their insertion order. |
| SessionModel.Process | webtracker/session.py:22 | Processing raises IndexError exactly when the session has no record. Otherwise it keeps the records as a permutation. |
| SessionModel.SessionTimes | webtracker/session.py:20-23 | `start` and `end` are the earliest and latest timestamps of the session's records. The duration `end - start` is non-negative. |
| SessionModel.GetDownloads | webtracker/session.py:37-38 | There is one download per pair position. It is built from that record and the next, with the session's url and key. |
| SessionModel.DownloadsOfOrderedLogs | webtracker/session.py:33-40 | On sorted records each download opens with Started and closes with Finished, and has start <= end. Downloads come in ascending order and never share a record. |
| SessionModel.DownloadsWithin | webtracker/session.py:33-40 | Every download lies between the session's first and last record. |
| SessionModel.AvgDloadTime | webtracker/session.py:42-47 | The average is `None` exactly when there is no download. Otherwise it times the download count is the sum of `end - start` over the downloads. It is non-negative when every download ends no earlier than it starts. The draft's `get_avg_dload_times` (webtracker.py:192-197) is the same. |
| SessionModel.DeriveDownloads | webtracker/session.py:42-47 | For a sorted session the average is `None` exactly without downloads, and otherwise at least 0. |
| SessionModel.ProcessedBounds | webtracker/session.py:49-50 | A processed session has a non-negative duration. It has at most half as many downloads as records, each with start <= end. |
| SessionModel.ProcessSession | webtracker/webtracker.py:39-43 | The per-session steps never raise on a session built from records of one key. They give that key's attributes and time-ordered records. |
| OverlapModel.Build | webtracker/overlap.py:4-15 | The constructor raises IndexError exactly when there are fewer than two members. Otherwise `duration` is `overlap_end - overlap_start` and `num_urls` stays 0. |
| OverlapModel.BuildValues | webtracker/overlap.py:20-33 | The overlapping url and `overlap_start` are the second member's. `overlap_end` is the terminator's end minus the second-greatest member end. `time_before_overlap_starts` is always set, to the second member's start minus the anchor's start. |
| OverlapModel.SecondLargestEnd | webtracker/overlap.py:23-26 | `sorted(members, key=end)[-2].end` is the second greatest end: at most one member ends later, and at least two end at that time or later. |
| OverlapModel.BuildSigns | webtracker/overlap.py:31-33 | When all members start after the anchor and end no later than the terminator, the time before the overlap starts is positive and the overlap end is non-negative. |
| OverlapModel.Urls | webtracker/overlap.py:17-18 | `get_urls` gives every member's url in member order, repeats included. `User.get_urls_in_dloads` (webtracker/user.py:67-68) is the same comprehension over the downloads. |
| OverlapModel.UrlsKeepDuplicates | webtracker/overlap.py:17-18 | Two members with one url give that url twice. The membership test reads the still-empty old list. |
| Chaining.Pass | webtracker/user.py:108-110 | A download is collected in a pass exactly when it comes after `idx` and starts strictly after the anchor's start and no later than the current end. |
| Chaining.AddNew | webtracker/user.py:129-131 | Merging a pass into `total_overlaps` keeps the old keys first. It adds only new ones and keeps the keys distinct. |
| Chaining.Target | webtracker/user.py:121-123 | The terminator is one of the collected downloads. |
| Chaining.TargetOk | webtracker/user.py:136-139 | An emitted overlap has at least two distinct members. Each member comes after the anchor and starts strictly after it. The terminator is the last member with the greatest end. |
| Chaining.Step | webtracker/user.py:112-161 | Each of the four branches keeps the scan invariant. It either breaks at the same `idx` or advances `idx` by one. |
| Chaining.StepReach | webtracker/user.py:117-133 | `ending_dload` is always at or before `idx`. On downloads sorted by end its end never decreases from one pass to the next. |
| Chaining.Run | webtracker/user.py:103-161 | The `while True` loop terminates, and ends in a state that satisfies the invariant. |
| Chaining.Overlaps | webtracker/user.py:92-168 | All emitted overlaps are well formed and their anchors strictly ascend. There are fewer overlaps than downloads. No downloads, or fewer than three, give no overlap. |
| Chaining.ChainNeedsThree | webtracker/user.py:108-119 | An overlap needs an anchor and two later downloads, so its anchor has at least two downloads after it. |
| UserModel.GetLogs | webtracker/user.py:38-42 | The user's records are every session record exactly once, ordered by timestamp. |
| UserModel.BrowsingTime | webtracker/user.py:44-45 | With no record, `max` raises ValueError. Otherwise the value is non-negative and bounds every difference of two timestamps. |
| UserModel.BrowsingTimeOrdered | webtracker/user.py:44-45 | On time-ordered records the browsing time is the last timestamp minus the first. |
| UserModel.GetStarts | webtracker/user.py:47-51 | The starts are the Started records of the user's sessions, each as many times as it occurs there, and nothing else. The draft's `get_starts` (webtracker.py:77-82) is the same. |
| UserModel.GetStartsBySession | webtracker/user.py:47-51 | The starts follow the nested loop: session by session, and within a session in record order. |
| UserModel.UrlsVisited | webtracker/user.py:53-56 | The visited urls are the session urls, each once, in order of first appearance. |
| UserModel.GetDloads | webtracker/user.py:58-62 | The downloads are every session's downloads, sorted by end and then by start. |
| UserModel.PercentDloads | webtracker/user.py:64-65 | No record raises ZeroDivisionError. Otherwise the value times the record count is 200 times the download count. |
| UserModel.PercentDloadsBound | webtracker/user.py:64-65 | For processed sessions with a download, the percentage lies in (0, 100]. |
| UserModel.DownloadLogBound | webtracker/user.py:58-65 | Over processed sessions, twice the download count is at most the record count. |
| UserModel.AvgDloadTimePerSession | webtracker/user.py:70-74 | There is one entry per session with an average download time, in session order. |
| UserModel.AvgSessionTime | webtracker/user.py:76-78 | The value is `None` exactly without sessions. Otherwise it times the session count is the sum of the durations. For processed sessions it is non-negative. |
| UserModel.UrlAvgsSpec | webtracker/user.py:82-85 | `avg_times[url]` holds the averages of the sessions on that url that have one, in session order. |
| UserModel.AvgDloadTimePerUrlSpec | webtracker/user.py:80-89 | There is one entry per url whose sessions have an average, in url order. Each entry holds the mean of those averages. |
| UserModel.AvgDloadTimePerUrlVisited | webtracker/user.py:80-89 | Over the visited urls, every url of a session with an average gets an entry, and no url gets two. |
| UserModel.AvgDloadTimePerUrlNonNegative | webtracker/user.py:84-88 | For processed sessions every per-url mean is non-negative. |
| UserModel.ToOverlap | webtracker/user.py:126-154 | A scanned overlap becomes an `Overlap` with the anchor, the collected downloads in insertion order, and the terminator. |
| UserModel.OverlapFacts | webtracker/user.py:109 | A scanned overlap has at least two members. Its time before the overlap starts is set and positive, its overlap end is non-negative, and its `num_urls` is 0. |
| UserModel.PercentOverlaps | webtracker/user.py:171-175 | No record raises ZeroDivisionError. Otherwise each overlap counts its members plus its anchor, out of 100 per record, and any overlap makes the value positive. |
| UserModel.AvgNumUrlsPerOverlaps | webtracker/user.py:177-178 | Unguarded: no overlap raises ZeroDivisionError. Otherwise the average is 0 while `num_urls` stays 0. |
| UserModel.AvgOverlapTime | webtracker/user.py:180-181 | Unguarded: no overlap raises ZeroDivisionError. Otherwise the value is the mean of the overlap durations. |
| UserModel.TimesBetweenOverlaps | webtracker/user.py:184-191 | The loop collects `overlaps[i+1].overlap_start - overlaps[i].overlap_end` for each consecutive pair, one per pair. |
| UserModel.AvgTimeBetweenOverlaps | webtracker/user.py:183-192 | The value is set exactly with two or more overlaps, to the mean of the consecutive gaps. |
| UserModel.TimesBefore | webtracker/user.py:195 | The times before the overlaps start are available exactly when every one of them is set. |
| UserModel.AvgTimeBeforeOverlapStarts | webtracker/user.py:194-195 | The value is defined exactly with at least one overlap and every time set. It then times the overlap count is the sum of the times before the overlaps start. It is positive when every time is. |
| Pipeline.GetSublists | webtracker/webtracker.py:17-21 | `get_sublists(lst, n)` returns n lists. |
| Pipeline.SublistEntries | webtracker/webtracker.py:19-20 | Entry m of sublist k is element k + m*n, and each sublist runs to the end of the list. |
| Pipeline.SublistsCover | webtracker/webtracker.py:19-20 | Element i lands in sublist i % n at position i / n. |
| Pipeline.SublistsUnique | webtracker/webtracker.py:19-20 | No element lands anywhere else. |
| Pipeline.SublistSizes | webtracker/webtracker.py:19-20 | Sublist sizes differ by at most one, earlier sublists being the longer. |
| Pipeline.SessionDictSpec | webtracker/webtracker.py:29-36 | The session dict has one entry per distinct key, in order of first appearance. Each entry is built from exactly that key's records, in input order. |
| Pipeline.GroupSessions | webtracker/webtracker.py:32-43 | Grouping never raises. The sessions split the records by key and are processed with their key's attributes. |
| Pipeline.LogInOneSession | webtracker/webtracker.py:32-38 | Each record is in exactly one session, the one for its key. Keys are distinct and every record's key has a session. |
| Pipeline.AssignUsers | webtracker/webtracker.py:45-51 | Each user id gets a User holding exactly the sessions with that userid, in session order. |
| Pipeline.UsersPartitionSessions | webtracker/webtracker.py:29-52 | The user ids are distinct and in order of first record. A user holds a session exactly when the session has its id. Every session has a user, and every user has a processed session. |
| Pipeline.GenerateUserLogsOk | webtracker.py:441-468 | Grouping records into users never raises and yields the users of the partition above. This holds for the draft's `generate_user_sessions` and the package's `generate_user_logs` alike. |
| Pipeline.BaseInfo | webtracker/webtracker.py:76-83 | The unguarded getters raise only for a user without records. They leave the download and overlap figures unset. |
| Pipeline.DownloadPart | webtracker/webtracker.py:84-87 | The download block runs only with a download. It then sets the percentage, the download urls and the overlaps. |
| Pipeline.OverlapPart | webtracker/webtracker.py:90-104 | The overlap block runs only with an overlap. With records and well-formed overlaps it sets every overlap figure and changes nothing else. The average time between overlaps needs two overlaps. |
| Pipeline.DownloadStage | webtracker/webtracker.py:76-89 | For processed sessions the download figures are set exactly with a download, the percentage in (0, 100]. Overlaps exist only with downloads. |
| Pipeline.OverlapsWellFormed | webtracker/user.py:126-154 | Every overlap `get_overlaps` yields has its time before the overlap starts set and positive, and `num_urls` 0. |
| Pipeline.GenerateUserInfoGuards | webtracker/webtracker.py:84-104 | With the missing-method calls removed, a user never raises. The download figures are set exactly with a download, and the overlap figures exactly with an overlap, so no guarded division is by zero. |
| Pipeline.AsWrittenRaisesOnDownload | webtracker/webtracker.py:88-89 | As written, a user with records raises AttributeError exactly when it has a download. Without a download it agrees with the corrected version. |
| Pipeline.ExampleRaisesAsWritten | webtracker/webtracker.py:84-97 | A Started record at 0 and its Finished record at 5 make one user. For that user the code as written raises AttributeError and the corrected code does not. |
| Pipeline.PipelineOk | webtracker/webtracker.py:24-110 | The corrected pipeline never raises: grouping succeeds and every user gets its figures. |
| Pipeline.MsTo | webtracker/webtracker.py:203-213 | `None` and 0 both give `None`. Any other value is divided by the unit and stays non-zero. |
| Pipeline.MsToInverse | webtracker/webtracker.py:203-213 | Converting a non-zero amount of units to milliseconds and back gives the amount. |
| Pipeline.UrlAxesSpec | webtracker/webtracker.py:150-158 | A url has a row exactly when some dict gives it a truthy value. Its row holds those values in dict order, so zero or empty metrics never appear. |
| TotalsModel.CollectOverlapsConcat | webtracker/totals.py:26-30 | The collected overlaps are every user's overlaps, concatenated in user order. |
| TotalsModel.CollectOverlapsMembers | webtracker/totals.py:26-30 | An overlap is collected exactly when some user has it. |
| TotalsModel.OverlappingUrls | webtracker/totals.py:38-40 | There is one url per collected overlap, its `overlapping_url`, in the same order. |
| TotalsModel.OverlappingUrlsAreSecondMembers | webtracker/overlap.py:13 | For constructed overlaps, each overlapping url is the url of the second member. |
| TotalsModel.NumTimesSpec | webtracker/totals.py:56-62 | A user's counts have one entry per url of its sessions, in order of first appearance. Each entry is the total downloads of that user's sessions on the url. |
| TotalsModel.NumTimesLastUserWins | webtracker/totals.py:54-63 | The pooled count of a url is the count of the last user with a session on it, replacing earlier users' counts rather than adding to them. Urls nobody visited have no entry. |
| TotalsModel.MarkBeginsSpec | webtracker/totals.py:67-71 | Marking records one by one gives the urls of the records that began an overlap. Each appears once, in order of first appearance, mapped to "yes". |
| TotalsModel.UrlBeginsAnOverlapSpec | webtracker/totals.py:65-71 | A url is a key exactly when it is a logged url that occurs in `overlapping_urls`. Each key maps to "yes". |
| TotalsModel.AvgOverlapDuration | webtracker/totals.py:85-89 | Unguarded: no overlap raises ZeroDivisionError. Otherwise the value is the mean duration. |
| TotalsModel.TotalAvgTimeBeforeOverlapStarts | webtracker/totals.py:91-95 | When defined, the value times the overlap count is the sum of the times before the overlaps start. For constructed overlaps it raises exactly with no overlap, and is otherwise positive. |
| TotalsModel.TotalAvgNumUrlsPerOverlaps | webtracker/totals.py:106-110 | Unguarded: no overlap raises ZeroDivisionError. For constructed overlaps the value is otherwise 0. |
| TotalsModel.TotalAvgTimeBetweenOverlaps | webtracker/totals.py:97-104 | The value keeps its initial 0 when no user has the figure. Otherwise it is the mean over the users that have it. |
| TotalsModel.GapUsers | webtracker/totals.py:99-102 | The users counted are exactly those with at least two overlaps. |
| LegacyTracker.OverlapOnes | webtracker.py:94-109 | For one download, the members are the Started records of other sessions strictly inside it, in time order. |
| LegacyTracker.OverlapDloads | webtracker.py:100-108 | For one download, the members are other sessions' downloads whose start lies strictly inside it, ordered by start. |
| LegacyTracker.PerDownloadFlat | webtracker.py:88-93 | The nested session/download loop visits the user's downloads in order, each with its own session key. |
| LegacyTracker.StaticOverlapsSpec | webtracker.py:84-109 | Each list gets exactly one overlap per download, even when nothing overlaps. Its members are exactly the strictly-inside starts and downloads of other sessions. |
| LegacyTracker.WebsitesOf | webtracker.py:335-343 | A user's website list has no duplicates and keeps first-appearance order. Its reported total is its length. |
| LegacyTracker.WebsitesPerUser | webtracker.py:333-344 | `user_websites`, as built before the `print_results` call that cannot run, has one entry per user with a session, in user order, each that user's website list. |
| LegacyTracker.WebsitesReported | webtracker.py:339 | A user is reported exactly when it has a session. |
| V9.SortLogs | v9.py:60-62 | The records are permuted into time order. `start` is the earliest timestamp. |
| V9.GetDownloadsSpec | v9.py:71-78 | The downloads are exactly the adjacent Started/Finished timestamp pairs, at most one per two records. On sorted records each has start <= end. |
| V9.GenerateSessionsSpec | v9.py:180-193 | Each session holds exactly its key's records in time order and starts at their earliest timestamp. Keys are the records' keys, each once. Sessions are ordered by (start, userid, url, tabid). |
| V9.EachLogOneSession | v9.py:182-187 | Every record lies in exactly one session. |
| V9.LinesSpec | v9.py:146-151 | There is one line per session with a download, in session order. |
| V9.ReportMean | v9.py:149-151 | A line holds its session's user, url and tab. Its average times the download count is the total download time. |
| V9.AvgUrlDloadTimeUsers | v9.py:145-151 | A user is listed exactly when one of its sessions has a download. |
| V9.AvgUrlDloadTimeLines | v9.py:145-151 | Each line under a user is the line of one of that user's sessions with a download. |
| V9.AvgNonNegative | v9.py:180-193 | Sessions from `generate_sessions` have non-negative average download times. |
| V8.UserEntriesSpec | v8.py:75-86 | A user gets one entry per distinct (url, tab) pair of its records, in order of first appearance. Each entry holds exactly that pair's records, each as often as it occurs, in time order. |
| V8.SortedLstPermutation | v8.py:75-86 | The entries together hold every record exactly once. |
| V8.UrlTabTimeSorted | v8.py:85 | Sorting by (url, tab, timestamp) within one url and tab orders by timestamp. |
| V8.SortedLstSpec | v8.py:67-86 | Every entry is non-empty and holds one user's records, of one url and tab, in time order. Together the entries hold every record exactly once. |
| V8.PairTimes | v8.py:111-118 | The times `ts[i+1] - ts[i]` are recorded exactly at the Started-then-Finished positions. The trailing lookup error is swallowed. |
| V8.ReportedIffPair | v8.py:108-121 | An entry is reported exactly when it has a download time. The two-record guard excludes nothing more. |
| V8.ReportMean | v8.py:119-121 | A report holds the entry's user and the sum of its download times divided by their count. |
| V8.AvgUrlDloadTimeSpec | v8.py:103-121 | The reports are those of the entries with a download time, in order, one each. Each is the report of its entry. |
| V7.AvgDloadTimeEachUser | v7.py:106-117 | A group is printed exactly when it has at least two records. |
| V7.LongAndSingle | v7.py:110-117 | Over non-empty groups, the printed records plus the skipped single-record groups number all records. |
| V7.PrintedRecords | v7.py:76-117 | The printed records, plus one per single-record (url, tab) group, number all records. |
| V6.UniqueUseridsSpec | v6.py:82-89 | Users appear in order of first record. Each user's list holds exactly that user's records, in input order. `v7.py:55-62` and `v8.py:54-61` are the same code. |
| V6.RemovePassProgress | v6.py:61-63 | A pass that meets a closed record removes at least one record. |
| V6.AllClosedPass | v6.py:61-63 | On closed records only, one pass keeps half of them. Each removal makes the iterator skip the next record. |
| V6.RemoveClosedTabsSpec | v6.py:61-71 | The three passes keep every open record, in order. They remove only closed records, and at least one when there is one. On closed records only, an eighth survive. |
| V6.EightClosedLeaveOne | v6.py:61-71 | Eight closed records leave one closed record behind. |
| V6.RemoveAllClosed | v6.py:53-54 | The intended removal keeps exactly the open records, in order. |
| V6.RemoveClosedTabsVersusIntended | v6.py:53-71 | The three passes agree with the intended removal on open records. They agree completely exactly when no closed record survives. |
| V6.UniqueSessionsSpec | v6.py:95-102 | There is one group per (url, tab) that occurs. It holds every record with that url and tab, whichever user logged it. |
| V6.SessionsSharedAcrossUsers | v6.py:95-102 | Two records with the same url and tab share a group even when their users differ. |
| V6.SetSorted | v6.py:109-112 | Each user's list is permuted into (url, tab, status, timestamp) order. |
| V6.StatusBeforeTime | v6.py:111 | Within one url and tab, a lower status comes first even when its timestamp is later. Timestamps order only records of equal status. |
| V6.V6SortedSpec | v6.py:42-51 | After the intended removal, each user's sorted list holds exactly that user's open records. |
| V3.UniqueUrlsSpec | v3.py:52-60 | Urls appear in order of first record. A url keeps its first record whatever its status, then its later records that are not closed, in input order. |
| V3.GroupTimeSpec | v3.py:80-86 | A time is recorded exactly when there are two records or more, the least status is Started and the greatest Finished. It is the last Finished timestamp minus the first Started one, in input order. |
| V3.FinishedThenStarted | v3.py:81-85 | A Finished record listed before a Started one records the Finished timestamp minus the Started one, whatever their order in time. |
| V3.NegativeTimeExample | v3.py:81-85 | A Finished record at 0 and a Started one at 5 record -5. |
| V3.TimesSpec | v3.py:80-86 | The recorded times are those of the groups with a time, in order. |
| V3.SentinelHidesTime | v3.py:82-89 | Finished at 4 and Started at 5 give the time -1. It counts in the average, but the as-written print test drops its line. |
| V3.LinesOfRecorded | v3.py:88-89 | Corrected: every group with a recorded time gets its line. |
| V3.LinesSpec | v3.py:82-89 | Corrected: there are as many lines as recorded times, each with its time, user and tab. |
| V3.AvgOf | v3.py:91-92 | The average is printed exactly when some time was recorded, and it is their mean. |
| V3.AvgDloadTimeSpec | v3.py:68-92 | There is one report per url, in order of first appearance, each over the records `get_unique_urls` kept for it. This holds both for the report as written, whose lines pass the `!= -1` test, and for the corrected report. |
| V3.SentinelReport | v3.py:68-92 | On Finished at 4 and Started at 5, the report as written has the average -1 but no line. The corrected report prints the line of that time. |

## Left out

- Log-line parsing, argument handling and `main` (`parse_logs`, `handle_args`) are left out. The model starts from typed records.
- The MD5 session hash of `webtracker/log.py` is a foreign call. The key is the structural triple instead, so keys that differ but whose concatenations collide stay apart.
- The multiprocessing fan-out, the `Manager` list, `tqdm` and `deepcopy` are left out. Only `get_sublists` is modelled, because the order of `ret_users` depends on process timing.
- `webtracker/graph.py`, CSV output, Dash, and the row builders `get_user_axes`, `get_dload_axes`, `get_overlap_axes` and `get_total_overlap_axes` are left out. They only reformat values for display. `get_dload_axes` would also raise AttributeError, since it reads `dload.duration` (webtracker/webtracker.py:169) and `Download` has no duration.
- `round(…, 2)`, `numpy.mean` and `statistics.mode` are floating-point library calls. Averages are exact reals.
  - `Pipeline.MsTo` omits the rounding.
  - `UserModel.AvgDloadTimePerUrlSpec` uses an exact mean for `numpy.mean`.
  - `Totals.get_avg_dload_time_per_url` and `get_most_common_url_that_begins_an_overlap` are not modelled.
- `Totals.get_all_urls_in_overlaps` and `get_url_is_involved_in_an_overlap` are not modelled. They read `overlap.unique_urls`, which `Overlap` never defines.
- Code that cannot run is not modelled:
  - the recursive `Download.session` property;
  - the undefined `Downloads` class in the top-level draft;
  - `print_results` with its extra `self`;
  - `OverlapAnalyzer`, which reads attributes `User` never defines;
  - `Session.__contains__` in the package, which uses an unimported `Log`.
- All printing, `__str__`, timeline and pprint methods are left out, as are stubs that only `pass` and the commented-out sweep in `get_num_urls`. Printed reports are modelled as the list of values they print.
- `v2.py`, `research.py` and `webtracker/__init__.py` are not part of this model.
- `UserModel.AvgNumUrlsPerOverlaps` is modelled as unset (`None`) before it runs. In the source the attribute starts as `[]`.
- In-place mutation is modelled as returned values. This covers the v6 list, the `_logs`, `_dloads` and `_overlaps` attributes, and the totals dicts.
- V9.SortLogs: requires a non-empty session. The draft would raise IndexError on an empty one, but `generate_sessions` never creates an empty session.
- The top-level draft's sessions are processed with the package's steps. Those steps also set `end` and `duration`, which the draft never reads.
- `User.get_dynamic_overlaps` only passes and is not modelled.

## Findings

| source | as written | input that shows it | evidently intended | confidence | as-written member | corrected member |
|---|---|---|---|---|---|---|
| webtracker/webtracker.py:88-97 | `generate_user_info` calls `dload.get_duration()`, `overlap.get_overlapping_url()` and `overlap.get_overlapped_url()`, none of which exist. Any user with a download raises AttributeError. | One user "u", tab 1, url "w": Started at 0, Finished at 5 | Skip the missing calls. `Download` has no duration at all; only overlaps have one, set by `Overlap.get_duration`, which exists and is called. The overlapping url is set by the constructor. | high, not executed | Pipeline.GenerateUserInfoAsWritten, shown by Pipeline.AsWrittenRaisesOnDownload and Pipeline.ExampleRaisesAsWritten | Pipeline.GenerateUserInfo, proved by Pipeline.GenerateUserInfoGuards and Pipeline.PipelineOk |
| v6.py:61-71 | `remove_closed_tabs` removes from the list while iterating over it. Each removal skips the next record, so three passes leave closed records behind. | Eight closed records: one survives | Every closed record removed and open records kept in order | high, not executed | V6.RemoveClosedTabs, shown by V6.EightClosedLeaveOne | V6.RemoveAllClosed, related by V6.RemoveClosedTabsVersusIntended and used by V6.V6SortedSpec |
| v3.py:82-89 | `-1` is both the "no time" sentinel and a possible recorded time. A recorded -1 counts in the average but its line is never printed. | User "u", tab 1, url "w": Finished at 4, Started at 5 | Every recorded time printed | medium, not executed | V3.LinesAsWritten, used by V3.AvgDloadTime and shown by V3.SentinelHidesTime and V3.SentinelReport | V3.Lines, proved by V3.LinesSpec and V3.LinesOfRecorded, and used by V3.AvgDloadTimeCorrected |
