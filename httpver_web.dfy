/** The `httpver` web front end: its grade colouring and the request
    handler, which serves live cached results and otherwise scans and stores
    them, listing every scan that was not hidden (no success test, unlike
    the `http1` front end). */
module HttpverWeb {
  import opened Strings
  import Sequences
  import Check
  import Grade
  import Cache
  import opened WebHelpers
  import opened WebScan

  /** `gradeClass`: the CSS class of a result's grade. */
  function GradeClass(cr: Check.CheckResult): String {
    match cr.grade
    case "A" => "fantastic"
    case "B" => "pass"
    case "C" => "pass"
    case _ => "fail"
  }

  /** For a scanned target the colour tells the evidence: "fantastic"
      exactly with HTTP/3, "pass" exactly with HTTP/2 but not HTTP/3, "fail"
      with neither; a refused target is always "fail". */
  lemma GradeClassMeaning(target: String, overridePort: String, env: Check.Env)
    ensures var (res, reqs) := Check.CheckOf(target, overridePort, env);
      if reqs == [] then GradeClass(res) == "fail"
      else
        (GradeClass(res) == "fantastic" <==> res.results[3].supported)
        && (GradeClass(res) == "pass" <==> !res.results[3].supported && res.results[2].supported)
        && (GradeClass(res) == "fail" <==> !res.results[3].supported && !res.results[2].supported)
  {
    var (res, reqs) := Check.CheckOf(target, overridePort, env);
    if Check.NormalizeURL(target, env).Success? && env.parse(Check.NormalizeURL(target, env).value).Success? {
      Check.AcceptedTargetShape(target, overridePort, env);
      Check.GradeFromProbes(target, overridePort, env);
      Grade.GradeMeaning(res.results[3].supported, res.results[2].supported, res.tlsVersion);
    }
  }

  /** What serving a checked list of targets does, from the cache state
      before (`data`, `keys`) to the state after (`data'`, `keys'`) and the
      page: live cached results are served as they are, with their age;
      otherwise the fresh results are stored for four hours, listed as
      recent unless hidden. */
  predicate Served(targets: seq<String>, raw: String, hideValue: String, isJson: bool, now: int, env: Check.Env,
                   data: map<String, Cache.CacheEntry>, keys: seq<String>,
                   data': map<String, Cache.CacheEntry>, keys': seq<String>, page: Page)
  {
    var key := CacheKey(targets);
    var overview := OverviewOf(keys', data', now);
    if key in data && Cache.Live(data[key], now) then
      data' == data && keys' == keys
      && page == (if isJson then Json(data[key].results)
                  else Report(raw, HideRequested(hideValue), data[key].results, true,
                              FormatAge(now - data[key].scannedAt), overview))
    else
      var results, listed := FreshResults(targets, env), !HideRequested(hideValue);
      data' == Cache.Sweep(data, now)[key := Cache.NewEntry(results, listed, now)]
      && keys' == (if listed then Cache.Touch(keys, key) else keys)
      && page == (if isJson then Json(results) else Report(raw, !listed, results, false, "", overview))
  }

  /** `handleScan`: no targets or too many show the form and leave the cache
      alone; one to five targets are served through the cache. */
  method HandleScan(cache: Cache.ResultCache, raw: String, hideValue: String, isJson: bool,
                    now: int, env: Check.Env, numCpu: int) returns (page: Page)
    requires cache.Valid()
    modifies cache
    ensures cache.Valid()
    ensures var targets := TargetsOf(raw);
      !(1 <= |targets| <= MaxWebTargets) ==>
        cache.data == old(cache.data) && cache.recentKeys == old(cache.recentKeys)
        && page == Form(raw, if |targets| == 0 then "" else TooManyTargets, OverviewOf(cache.recentKeys, cache.data, now))
    ensures var targets := TargetsOf(raw);
      1 <= |targets| <= MaxWebTargets ==>
        Served(targets, raw, hideValue, isJson, now, env,
               old(cache.data), old(cache.recentKeys), cache.data, cache.recentKeys, page)
  {
    var targets := ParseTargetsParam(raw);
    if |targets| == 0 {
      var overview := BuildOverview(cache, now);
      return Form(raw, "", overview);
    }
    if |targets| > MaxWebTargets {
      var overview := BuildOverview(cache, now);
      return Form(raw, TooManyTargets, overview);
    }
    page := ServeTargets(cache, targets, raw, hideValue, isJson, now, env, numCpu);
  }

  /** The part of `handleScan` after the target count is checked. */
  method ServeTargets(cache: Cache.ResultCache, targets: seq<String>, raw: String, hideValue: String, isJson: bool,
                      now: int, env: Check.Env, numCpu: int) returns (page: Page)
    requires cache.Valid()
    modifies cache
    ensures cache.Valid()
    ensures Served(targets, raw, hideValue, isJson, now, env,
                   old(cache.data), old(cache.recentKeys), cache.data, cache.recentKeys, page)
  {
    var hidden := HideRequested(hideValue);
    var key := CacheKey(targets);
    var results, usedCache, cacheAge;
    var cached, scannedAt, ok := cache.Get(key, now);
    if ok {
      results, usedCache, cacheAge := cached, true, FormatAge(now - scannedAt);
    } else {
      results := ScanTargets(targets, env, numCpu);
      usedCache, cacheAge := false, "";
      cache.Set(key, results, !hidden, now);
    }
    if isJson {
      return Json(results);
    }
    var overview := BuildOverview(cache, now);
    page := Report(raw, hidden, results, usedCache, cacheAge, overview);
  }

  /** Serving never probes while the cached results are live: a hit keeps
      the cache and shows exactly the stored results. A miss stores the fresh
      results, and unless hidden they head the recent panel of the page,
      whatever they hold (a refused or unreachable target included); when
      hidden, the recent list is left as it was. */
  lemma ServedSpec(targets: seq<String>, raw: String, hideValue: String, now: int, env: Check.Env,
                   data: map<String, Cache.CacheEntry>, keys: seq<String>,
                   data': map<String, Cache.CacheEntry>, keys': seq<String>, page: Page)
    requires Cache.Distinct(keys) && |keys| <= Cache.MaxRecentKeys
    requires Served(targets, raw, hideValue, false, now, env, data, keys, data', keys', page)
    ensures var key := CacheKey(targets);
      var hit := key in data && Cache.Live(data[key], now);
      page.Report? && page.usedCache == hit
      && (hit ==> page.results == data[key].results && data' == data && keys' == keys)
      && (!hit ==>
            page.results == FreshResults(targets, env) && key in data'
            && data'[key].results == page.results && data'[key].scannedAt == now)
      && (!hit && HideRequested(hideValue) ==> keys' == keys)
      && (!hit && !HideRequested(hideValue) ==>
            keys'[|keys'| - 1] == key
            && page.overview.recent
               == Sequences.Take(Cache.EntrySnapshots(data'[key]) + Cache.Newest(keys'[..|keys'| - 1], data', now), RecentLimit))
  {
    var key := CacheKey(targets);
    if !(key in data && Cache.Live(data[key], now)) && !HideRequested(hideValue) {
      var results := FreshResults(targets, env);
      Cache.TouchSpec(keys, key);
      Cache.StoredScanShownFirst(keys, data, key, results, now);
    }
  }
}
