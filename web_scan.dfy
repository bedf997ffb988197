/** The pieces of `handleScan` both web front ends share: the "hide" form
    switch, the overview panels built from the cache (twelve recent rows, at
    most six graded A and six graded F among them), the page a request
    renders, and the fresh scan of up to five targets with no port
    override. */
module WebScan {
  import opened Strings
  import opened Sequences
  import Check
  import Cache
  import WebHelpers

  const RecentLimit := 12
  const PanelLimit := 6

  /** The message for a request naming more targets than the form allows. */
  const TooManyTargets := "Please provide between 1 and 5 targets."

  /** The message spells out the form's actual limit. */
  lemma TooManyTargetsNamesLimit()
    ensures TooManyTargets == "Please provide between 1 and " + NatToString(WebHelpers.MaxWebTargets) + " targets."
  {
  }

  /** The `hide` form value asks to keep the scan off the recent list. */
  predicate HideRequested(hideValue: String) {
    hideValue == "on" || hideValue == "1"
  }

  /** The three overview panels under the form. */
  datatype Overview = Overview(recent: seq<Cache.Snapshot>, best: seq<Cache.Snapshot>, worst: seq<Cache.Snapshot>)

  /** The panels for a cache state: the newest twelve visible rows, then the
      first six of them graded A and the first six graded F. */
  function OverviewOf(keys: seq<String>, data: map<String, Cache.CacheEntry>, now: int): Overview {
    var recent := Take(Cache.Newest(keys, data, now), RecentLimit);
    Overview(recent,
             Take(Filter(recent, WebHelpers.GradeIs("A")), PanelLimit),
             Take(Filter(recent, WebHelpers.GradeIs("F")), PanelLimit))
  }

  /** The panel code of `handleScan`: `recentSnapshots(12)` and two calls of
      `filterByGrade`. */
  method BuildOverview(cache: Cache.ResultCache, now: int) returns (o: Overview)
    ensures o == OverviewOf(cache.recentKeys, cache.data, now)
  {
    var recent := cache.RecentSnapshots(RecentLimit, now);
    var best := WebHelpers.FilterByGrade(recent, "A", PanelLimit);
    var worst := WebHelpers.FilterByGrade(recent, "F", PanelLimit);
    o := Overview(recent, best, worst);
  }

  /** The panels show only visible rows: the recent panel is a prefix of the
      newest rows of at most twelve, and the best and worst panels are
      order-kept selections of it, at most six long, graded A and F. */
  lemma OverviewSpec(keys: seq<String>, data: map<String, Cache.CacheEntry>, now: int)
    ensures var o := OverviewOf(keys, data, now);
      |o.recent| <= RecentLimit
      && IsSubsequence(o.recent, Cache.Newest(keys, data, now))
      && IsSubsequence(o.best, o.recent) && |o.best| <= PanelLimit
      && (forall i :: 0 <= i < |o.best| ==> o.best[i].grade == "A")
      && IsSubsequence(o.worst, o.recent) && |o.worst| <= PanelLimit
      && (forall i :: 0 <= i < |o.worst| ==> o.worst[i].grade == "F")
  {
    var all := Cache.Newest(keys, data, now);
    var recent := Take(all, RecentLimit);
    PrefixSubsequence(all, |recent|);
    WebHelpers.GradeFilterSpec(recent, "A", PanelLimit);
    WebHelpers.GradeFilterSpec(recent, "F", PanelLimit);
  }

  /** What one request renders: the form (with an error message or none),
      the results page, or the results as JSON. */
  datatype Page =
    | Form(targetsRaw: String, error: String, overview: Overview)
    | Report(targetsRaw: String, hideFromRecent: bool, results: seq<Check.CheckResult>,
             usedCache: bool, cacheAge: String, overview: Overview)
    | Json(results: seq<Check.CheckResult>)

  /** The results of scanning `targets` afresh, one per target, in order, with
      the default port behaviour. */
  function FreshResults(targets: seq<String>, env: Check.Env): (r: seq<Check.CheckResult>)
    ensures |r| == |targets|
  {
    seq(|targets|, i requires 0 <= i < |targets| => Check.CheckOf(targets[i], "", env).0)
  }

  /** The scan of `handleScan`: one target is checked directly, several
      through the worker pool; either way one result per target in order. */
  method ScanTargets(targets: seq<String>, env: Check.Env, numCpu: int) returns (results: seq<Check.CheckResult>)
    ensures results == FreshResults(targets, env)
  {
    if |targets| == 1 {
      var res, _ := Check.RunChecks(targets[0], "", env);
      results := [res];
    } else {
      results := Check.RunChecksMulti(targets, "", env, numCpu);
    }
  }
}
