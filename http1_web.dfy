/** The `http1` web front end: its grade colouring, the template helpers it
    alone has (the HTTP/1.x "not supported is good" reading, the HTTP/1.1
    warning, the downgrade note), the single-target error messages, the
    success test that keeps failed scans off the recent list, and the
    request handler that ties them to the result cache. */
module Http1Web {
  import opened Wrappers
  import opened Strings
  import Check
  import Grade
  import Cache
  import opened WebHelpers
  import opened WebScan

  // ------------------------------------------------------------ gradeClass

  /** `gradeClass`: the CSS class of a result's grade. */
  function GradeClass(cr: Check.CheckResult): String {
    match cr.grade
    case "A" => "fantastic"
    case "B" => "borderline"
    case "C" => "borderline"
    case _ => "fail"
  }

  /** For a scanned target the colour tells the evidence: "fantastic"
      exactly with HTTP/3, "borderline" exactly with HTTP/2 but not HTTP/3,
      "fail" with neither; a refused target is always "fail". */
  lemma GradeClassMeaning(target: String, overridePort: String, env: Check.Env)
    ensures var (res, reqs) := Check.CheckOf(target, overridePort, env);
      if reqs == [] then GradeClass(res) == "fail"
      else
        (GradeClass(res) == "fantastic" <==> res.results[3].supported)
        && (GradeClass(res) == "borderline" <==> !res.results[3].supported && res.results[2].supported)
        && (GradeClass(res) == "fail" <==> !res.results[3].supported && !res.results[2].supported)
  {
    var (res, reqs) := Check.CheckOf(target, overridePort, env);
    if Check.NormalizeURL(target, env).Success? && env.parse(Check.NormalizeURL(target, env).value).Success? {
      Check.AcceptedTargetShape(target, overridePort, env);
      Check.GradeFromProbes(target, overridePort, env);
      Grade.GradeMeaning(res.results[3].supported, res.results[2].supported, res.tlsVersion);
    }
  }

  // -------------------------------------------------- legacyNotSupportedOK

  /** `legacyNotSupportedOK`: an unsupported HTTP/1.0 or HTTP/1.1 row whose
      detail starts with "not supported" is a good outcome. */
  predicate LegacyNotSupportedOK(v: Check.VersionResult) {
    !v.supported && (v.version == "HTTP/1.0" || v.version == "HTTP/1.1") && HasPrefix(v.detail, "not supported")
  }

  lemma StartsNotSupported(rest: String)
    ensures HasPrefix("not supported" + rest, "not supported")
  {
    var p := "not supported";
    assert (p + rest)[..|p|] == p;
  }

  lemma OtherDetail(d: String)
    requires |d| > 0 && d[0] != 'n'
    ensures !HasPrefix(d, "not supported")
  {
  }

  lemma ProbeFailedDetail(m: String)
    ensures HasPrefix("not supported (or probe failed): " + m, "not supported")
  {
    var rest := " (or probe failed): " + m;
    StartsNotSupported(rest);
    assert "not supported (or probe failed): " == "not supported" + " (or probe failed): ";
    assert "not supported (or probe failed): " + m == "not supported" + rest;
  }

  lemma RefusedDetail()
    ensures HasPrefix("not supported (good) - TCP connection refused", "not supported")
  {
    var s := "not supported (good) - TCP connection refused";
    assert s[..13] == "not supported";
  }

  /** Both wordings of an HTTP/1.0 transport error start "not supported". */
  lemma Http10ErrorNotSupported(e: Check.ProbeError)
    ensures HasPrefix(Check.FormatHttp10Error(e), "not supported")
  {
    RefusedDetail();
    ProbeFailedDetail(e.message);
  }

  /** Read against the HTTP/1.0 probe: its row is a good outcome exactly
      when the probe failed in transport, a refused connection included. */
  lemma LegacyNotSupportedHttp10(o: Check.Outcome)
    ensures LegacyNotSupportedOK(Check.ClassifyHttp10(o)) <==> o.Failed?
  {
    var v := Check.ClassifyHttp10(o);
    match o
    case BuildFailed(_) =>
      OtherDetail(v.detail);
    case Failed(e) =>
      Http10ErrorNotSupported(e);
    case Response(_, _, proto, _) =>
      if !v.supported {
        OtherDetail(v.detail);
      }
  }

  /** Read against the HTTP/1.1 probe: the same rule. */
  lemma LegacyNotSupportedHttp11(o: Check.Outcome)
    ensures LegacyNotSupportedOK(Check.ClassifyHttp11(o)) <==> o.Failed?
  {
    var v := Check.ClassifyHttp11(o);
    match o
    case BuildFailed(_) =>
      OtherDetail(v.detail);
    case Failed(e) =>
      ProbeFailedDetail(e.message);
    case Response(_, _, proto, _) =>
      if !v.supported {
        OtherDetail(v.detail);
      }
  }

  /** The HTTP/2 and HTTP/3 rows are never read as good for being absent. */
  lemma LegacyNotSupportedModern(o: Check.Outcome)
    ensures !LegacyNotSupportedOK(Check.ClassifyHttp2(o))
    ensures !LegacyNotSupportedOK(Check.ClassifyHttp3(o))
  {
  }

  // --------------------------------------------------------- http11Warning

  const NoUpgradeWarning := "HTTP/1.1 is the highest supported version; clients cannot upgrade to HTTP/2 or HTTP/3."
  const DowngradeWarning := "Clients can be downgraded to HTTP/1.0, which is strongly discouraged."

  /** The HTTP/1.1 warning for row `v` of the results `all`. */
  function Http11WarningOf(all: seq<Check.VersionResult>, v: Check.VersionResult): String {
    if v.version != "HTTP/1.1" || !v.supported then ""
    else
      var notes := (if !HasVersion(all, "HTTP/2.0") && !HasVersion(all, "HTTP/3.0") then [NoUpgradeWarning] else [])
        + (if HasVersion(all, "HTTP/1.0") then [DowngradeWarning] else []);
      if |notes| == 0 then "" else Join(notes, ' ')
  }

  /** `http11Warning`: on a supported HTTP/1.1 row, scans the results for
      supported HTTP/3, HTTP/2 and HTTP/1.0 and joins the notes that apply. */
  method Http11Warning(all: seq<Check.VersionResult>, v: Check.VersionResult) returns (w: String)
    ensures w == Http11WarningOf(all, v)
  {
    if v.version != "HTTP/1.1" || !v.supported {
      return "";
    }
    var hasH2, hasH3, hasH10 := false, false, false;
    var i := 0;
    while i < |all|
      invariant 0 <= i <= |all|
      invariant hasH3 == HasVersion(all[..i], "HTTP/3.0")
      invariant hasH2 == HasVersion(all[..i], "HTTP/2.0")
      invariant hasH10 == HasVersion(all[..i], "HTTP/1.0")
    {
      var vr := all[i];
      if vr.version == "HTTP/3.0" {
        if vr.supported {
          hasH3 := true;
        }
      } else if vr.version == "HTTP/2.0" {
        if vr.supported {
          hasH2 := true;
        }
      } else if vr.version == "HTTP/1.0" {
        if vr.supported {
          hasH10 := true;
        }
      }
      assert all[..i + 1] == all[..i] + [vr];
      HasVersionAppend(all[..i], vr, "HTTP/3.0");
      HasVersionAppend(all[..i], vr, "HTTP/2.0");
      HasVersionAppend(all[..i], vr, "HTTP/1.0");
      i := i + 1;
    }
    assert all[..i] == all;
    var notes: seq<String> := [];
    if !hasH2 && !hasH3 {
      notes := notes + [NoUpgradeWarning];
    }
    if hasH10 {
      notes := notes + [DowngradeWarning];
    }
    if |notes| == 0 {
      return "";
    }
    w := Join(notes, ' ');
  }

  /** The warning is given exactly on a supported HTTP/1.1 row when neither
      HTTP/2 nor HTTP/3 is supported or HTTP/1.0 is, and it ends with the
      downgrade sentence exactly when HTTP/1.0 is supported. */
  lemma Http11WarningShape(all: seq<Check.VersionResult>, v: Check.VersionResult)
    ensures var w := Http11WarningOf(all, v);
      var noUpgrade := !HasVersion(all, "HTTP/2.0") && !HasVersion(all, "HTTP/3.0");
      (w != "" <==> v.version == "HTTP/1.1" && v.supported && (noUpgrade || HasVersion(all, "HTTP/1.0")))
      && (w != "" ==> (HasSuffix(w, DowngradeWarning) <==> HasVersion(all, "HTTP/1.0")))
  {
    var w := Http11WarningOf(all, v);
    var d := DowngradeWarning;
    var noUpgrade := !HasVersion(all, "HTTP/2.0") && !HasVersion(all, "HTTP/3.0");
    if w != "" {
      if !HasVersion(all, "HTTP/1.0") {
        assert w == NoUpgradeWarning;
        assert w[|w| - |d|..][|d| - 2] == '3' != d[|d| - 2];
      } else if noUpgrade {
        var notes := [NoUpgradeWarning, d];
        assert ([NoUpgradeWarning] + [d]) == notes;
        assert w == Join(notes, ' ');
        assert notes[1..] == [d];
        assert w == NoUpgradeWarning + [' '] + d;
        assert w[|w| - |d|..] == d;
      } else {
        assert w == d;
      }
    }
  }

  /** On results in the fixed version slots the warning appears only on the
      HTTP/1.1 row, and there exactly when HTTP/1.1 is supported and either
      neither HTTP/2 nor HTTP/3 is, or HTTP/1.0 is; it names the downgrade
      exactly when HTTP/1.0 is supported. */
  lemma Http11WarningOnSlots(rs: seq<Check.VersionResult>)
    requires FourSlots(rs)
    ensures var w := Http11WarningOf(rs, rs[1]);
      Http11WarningOf(rs, rs[0]) == "" && Http11WarningOf(rs, rs[2]) == "" && Http11WarningOf(rs, rs[3]) == ""
      && (w != "" <==> rs[1].supported && ((!rs[2].supported && !rs[3].supported) || rs[0].supported))
      && (w != "" ==> (HasSuffix(w, DowngradeWarning) <==> rs[0].supported))
  {
    HasVersionOfSlots(rs);
    Http11WarningShape(rs, rs[1]);
  }

  /** The same on the results of a scanned target. */
  lemma Http11WarningForCheck(target: String, overridePort: String, env: Check.Env)
    requires Check.NormalizeURL(target, env).Success?
    requires env.parse(Check.NormalizeURL(target, env).value).Success?
    ensures var rs := Check.CheckOf(target, overridePort, env).0.results;
      var w := Http11WarningOf(rs, rs[1]);
      Http11WarningOf(rs, rs[0]) == "" && Http11WarningOf(rs, rs[2]) == "" && Http11WarningOf(rs, rs[3]) == ""
      && (w != "" <==> rs[1].supported && ((!rs[2].supported && !rs[3].supported) || rs[0].supported))
      && (w != "" ==> (HasSuffix(w, DowngradeWarning) <==> rs[0].supported))
  {
    HasVersionReadsSlot(target, overridePort, env);
    Http11WarningOnSlots(Check.CheckOf(target, overridePort, env).0.results);
  }

  const H3DowngradePossible := "Downgrade to HTTP/2 or HTTP/1.1 is possible (not ideal; prefer keeping clients on HTTP/3)."
  const H3DowngradeImpossible := "Downgrade below HTTP/3 is not possible (good)."
  const H2DowngradePossible := "Downgrade to HTTP/1.1 is possible (not ideal; limit HTTP/1.x exposure)."
  const H2DowngradeImpossible := "Downgrade to HTTP/1.1 is not possible (good)."

  /** The downgrade note for row `v` of the results `all`. */
  function DowngradeNoteOf(all: seq<Check.VersionResult>, v: Check.VersionResult): String {
    if !v.supported then ""
    else if v.version == "HTTP/3.0" then
      if HasVersion(all, "HTTP/2.0") || HasVersion(all, "HTTP/1.1") then H3DowngradePossible else H3DowngradeImpossible
    else if v.version == "HTTP/2.0" then
      if HasVersion(all, "HTTP/1.1") then H2DowngradePossible else H2DowngradeImpossible
    else ""
  }

  /** `versionDowngradeNote`: on a supported HTTP/3 or HTTP/2 row, scans the
      supported rows for HTTP/2 and HTTP/1.1 and says whether clients can be
      pushed down to them. */
  method VersionDowngradeNote(all: seq<Check.VersionResult>, v: Check.VersionResult) returns (note: String)
    ensures note == DowngradeNoteOf(all, v)
  {
    if !v.supported {
      return "";
    }
    var hasH11, hasH2 := false, false;
    var i := 0;
    while i < |all|
      invariant 0 <= i <= |all|
      invariant hasH2 == HasVersion(all[..i], "HTTP/2.0")
      invariant hasH11 == HasVersion(all[..i], "HTTP/1.1")
    {
      var vr := all[i];
      assert all[..i + 1] == all[..i] + [vr];
      HasVersionAppend(all[..i], vr, "HTTP/2.0");
      HasVersionAppend(all[..i], vr, "HTTP/1.1");
      i := i + 1;
      if !vr.supported {
        continue;
      }
      if vr.version == "HTTP/2.0" {
        hasH2 := true;
      } else if vr.version == "HTTP/1.1" {
        hasH11 := true;
      }
    }
    assert all[..i] == all;
    if v.version == "HTTP/3.0" {
      if hasH2 || hasH11 {
        return H3DowngradePossible;
      }
      return H3DowngradeImpossible;
    } else if v.version == "HTTP/2.0" {
      if hasH11 {
        return H2DowngradePossible;
      }
      return H2DowngradeImpossible;
    }
    return "";
  }

  /** On results in the fixed version slots: the HTTP/3 row reports a
      possible downgrade exactly when HTTP/2 or HTTP/1.1 is also supported,
      the HTTP/2 row exactly when HTTP/1.1 is; unsupported rows and the
      HTTP/1.x rows carry no note. */
  lemma DowngradeNoteOnSlots(rs: seq<Check.VersionResult>)
    requires FourSlots(rs)
    ensures DowngradeNoteOf(rs, rs[0]) == "" && DowngradeNoteOf(rs, rs[1]) == ""
    ensures DowngradeNoteOf(rs, rs[3]) == "" <==> !rs[3].supported
    ensures DowngradeNoteOf(rs, rs[3]) == H3DowngradePossible <==> rs[3].supported && (rs[2].supported || rs[1].supported)
    ensures DowngradeNoteOf(rs, rs[2]) == "" <==> !rs[2].supported
    ensures DowngradeNoteOf(rs, rs[2]) == H2DowngradePossible <==> rs[2].supported && rs[1].supported
  {
    HasVersionOfSlots(rs);
  }

  /** The same on the results of a scanned target. */
  lemma DowngradeNoteForCheck(target: String, overridePort: String, env: Check.Env)
    requires Check.NormalizeURL(target, env).Success?
    requires env.parse(Check.NormalizeURL(target, env).value).Success?
    ensures var rs := Check.CheckOf(target, overridePort, env).0.results;
      DowngradeNoteOf(rs, rs[0]) == "" && DowngradeNoteOf(rs, rs[1]) == ""
      && (DowngradeNoteOf(rs, rs[3]) == "" <==> !rs[3].supported)
      && (DowngradeNoteOf(rs, rs[3]) == H3DowngradePossible <==> rs[3].supported && (rs[2].supported || rs[1].supported))
      && (DowngradeNoteOf(rs, rs[2]) == "" <==> !rs[2].supported)
      && (DowngradeNoteOf(rs, rs[2]) == H2DowngradePossible <==> rs[2].supported && rs[1].supported)
  {
    HasVersionReadsSlot(target, overridePort, env);
    DowngradeNoteOnSlots(Check.CheckOf(target, overridePort, env).0.results);
  }

  // --------------------------------------------- single-target error pages

  /** How `%q` shows the target in a message (escapes left out). */
  function Quote(s: String): String {
    "\"" + s + "\""
  }

  /** `inputValidationError`: the message for a single target that was
      refused before any probe. */
  function InputValidationError(results: seq<Check.CheckResult>): Option<String> {
    if |results| != 1 || |results[0].results| == 0 then None
    else
      var vr := results[0].results[0];
      if vr.version != "error" || !vr.error then None
      else
        var detail := if vr.detail == "" then "invalid hostname or URL" else vr.detail;
        Some("The hostname " + Quote(results[0].target) + " is invalid and cannot be scanned (" + detail + ").")
  }

  /** For a single target the validation message appears exactly when the
      target was refused and nothing was probed, and it carries the reason
      the target was refused. Several results never produce it. */
  lemma InputValidationErrorForCheck(target: String, env: Check.Env, more: seq<Check.CheckResult>)
    ensures var (res, reqs) := Check.CheckOf(target, "", env);
      (InputValidationError([res]).Some? <==> reqs == [])
      && (Check.NormalizeURL(target, env).Failure? ==>
            InputValidationError([res]) == Some("The hostname " + Quote(target) + " is invalid and cannot be scanned (invalid URL: "
              + Check.NormalizeURL(target, env).error + ")."))
      && InputValidationError([res, res] + more).None?
  {
    var norm := Check.NormalizeURL(target, env);
    if norm.Success? && env.parse(norm.value).Success? {
      Check.AcceptedTargetShape(target, "", env);
    } else if norm.Failure? {
      var detail := "invalid URL: " + norm.error;
      assert "The hostname " + Quote(target) + " is invalid and cannot be scanned (" + detail + ")."
        == "The hostname " + Quote(target) + " is invalid and cannot be scanned (invalid URL: " + norm.error + ").";
    }
  }

  /** `unresolvedHostError`: the message for a single target whose name has
      no DNS records. */
  function UnresolvedHostError(results: seq<Check.CheckResult>): Option<String> {
    if |results| != 1 || !results[0].unresolved then None
    else Some("The hostname " + Quote(results[0].target) + " cannot be scanned (no DNS records found).")
  }

  /** For a single target the DNS message appears exactly when one of its
      probes was told the host does not exist. */
  lemma UnresolvedHostErrorForCheck(target: String, env: Check.Env)
    ensures var (res, reqs) := Check.CheckOf(target, "", env);
      UnresolvedHostError([res]).Some? <==> exists k :: 0 <= k < |reqs| && Check.SawNoSuchHost(env.net(reqs[k]))
  {
    Check.UnresolvedIff(target, "", env);
  }

  // --------------------------------------------------- hasSuccessfulResult

  /** Some result that resolved has a supported version. */
  ghost predicate AnySupported(results: seq<Check.CheckResult>) {
    exists i, j :: 0 <= i < |results| && !results[i].unresolved
      && 0 <= j < |results[i].results| && results[i].results[j].supported
  }

  /** `hasSuccessfulResult`: looks through the resolved results for a
      supported version and stops at the first. */
  method HasSuccessfulResult(results: seq<Check.CheckResult>) returns (b: bool)
    ensures b == AnySupported(results)
  {
    var i := 0;
    while i < |results|
      invariant 0 <= i <= |results|
      invariant forall k, j :: 0 <= k < i && !results[k].unresolved && 0 <= j < |results[k].results| ==>
        !results[k].results[j].supported
    {
      if !results[i].unresolved {
        var rows := results[i].results;
        var j := 0;
        while j < |rows|
          invariant 0 <= j <= |rows|
          invariant forall m :: 0 <= m < j ==> !rows[m].supported
        {
          if rows[j].supported {
            return true;
          }
          j := j + 1;
        }
      }
      i := i + 1;
    }
    return false;
  }

  /** A refused target never counts as a successful scan; a scanned one does
      exactly when it resolved and some version is supported. */
  lemma SuccessOfCheck(target: String, env: Check.Env)
    ensures var (res, reqs) := Check.CheckOf(target, "", env);
      (reqs == [] ==> !AnySupported([res]))
      && (reqs != [] ==> (AnySupported([res]) <==>
            !res.unresolved && (res.results[0].supported || res.results[1].supported
                                || res.results[2].supported || res.results[3].supported)))
  {
    var (res, reqs) := Check.CheckOf(target, "", env);
    if Check.NormalizeURL(target, env).Success? && env.parse(Check.NormalizeURL(target, env).value).Success? {
      Check.AcceptedTargetShape(target, "", env);
      if !res.unresolved && res.results[0].supported { assert [res][0].results[0].supported; }
      if !res.unresolved && res.results[1].supported { assert [res][0].results[1].supported; }
      if !res.unresolved && res.results[2].supported { assert [res][0].results[2].supported; }
      if !res.unresolved && res.results[3].supported { assert [res][0].results[3].supported; }
    }
  }

  // ------------------------------------------------------------ handleScan

  /** Whether a fresh scan joins the recent list. */
  ghost predicate IncludeInRecent(hideValue: String, results: seq<Check.CheckResult>) {
    !HideRequested(hideValue) && AnySupported(results)
  }

  /** What a request with scan results renders: JSON when asked for, the
      form with the validation or DNS message for a single bad target, else
      the results page. */
  function ScanPage(raw: String, hideValue: String, isJson: bool, results: seq<Check.CheckResult>,
                    usedCache: bool, cacheAge: String, overview: Overview): Page {
    if isJson then Json(results)
    else if InputValidationError(results).Some? then Form(raw, InputValidationError(results).value, overview)
    else if UnresolvedHostError(results).Some? then Form(raw, UnresolvedHostError(results).value, overview)
    else Report(raw, HideRequested(hideValue), results, usedCache, cacheAge, overview)
  }

  /** What serving a checked list of targets does, from the cache state
      before (`data`, `keys`) to the state after (`data'`, `keys'`) and the
      page: live cached results are served as they are, with their age;
      otherwise the fresh results are stored for four hours, listed as
      recent only when not hidden and something was supported. */
  ghost predicate Served(targets: seq<String>, raw: String, hideValue: String, isJson: bool, now: int, env: Check.Env,
                         data: map<String, Cache.CacheEntry>, keys: seq<String>,
                         data': map<String, Cache.CacheEntry>, keys': seq<String>, page: Page)
  {
    var key := CacheKey(targets);
    var overview := OverviewOf(keys', data', now);
    if key in data && Cache.Live(data[key], now) then
      data' == data && keys' == keys
      && page == ScanPage(raw, hideValue, isJson, data[key].results, true,
                          FormatAge(now - data[key].scannedAt), overview)
    else
      var results := FreshResults(targets, env);
      var listed := IncludeInRecent(hideValue, results);
      data' == Cache.Sweep(data, now)[key := Cache.NewEntry(results, listed, now)]
      && keys' == (if listed then Cache.Touch(keys, key) else keys)
      && page == ScanPage(raw, hideValue, isJson, results, false, "", overview)
  }

  /** `handleScan`: no targets or too many show the form and leave the cache
      alone; one to five targets are served through the cache. */
  method HandleScan(cache: Cache.ResultCache, raw: String, hideValue: String, isJson: bool,
                    now: int, env: Check.Env, numCpu: int) returns (page: Page)
    requires cache.Valid()
    modifies cache
    ensures cache.Valid()
    ensures var targets := TargetsOf(raw);
      !(1 <= |targets| <= MaxWebTargets) ==>
        cache.data == old(cache.data) && cache.recentKeys == old(cache.recentKeys)
        && page == Form(raw, if |targets| == 0 then "" else TooManyTargets, OverviewOf(cache.recentKeys, cache.data, now))
    ensures var targets := TargetsOf(raw);
      1 <= |targets| <= MaxWebTargets ==>
        Served(targets, raw, hideValue, isJson, now, env,
               old(cache.data), old(cache.recentKeys), cache.data, cache.recentKeys, page)
  {
    var targets := ParseTargetsParam(raw);
    if |targets| == 0 {
      var overview := BuildOverview(cache, now);
      return Form(raw, "", overview);
    }
    if |targets| > MaxWebTargets {
      var overview := BuildOverview(cache, now);
      return Form(raw, TooManyTargets, overview);
    }
    page := ServeTargets(cache, targets, raw, hideValue, isJson, now, env, numCpu);
  }

  /** The part of `handleScan` after the target count is checked. */
  method ServeTargets(cache: Cache.ResultCache, targets: seq<String>, raw: String, hideValue: String, isJson: bool,
                      now: int, env: Check.Env, numCpu: int) returns (page: Page)
    requires cache.Valid()
    modifies cache
    ensures cache.Valid()
    ensures Served(targets, raw, hideValue, isJson, now, env,
                   old(cache.data), old(cache.recentKeys), cache.data, cache.recentKeys, page)
  {
    var hidden := HideRequested(hideValue);
    var key := CacheKey(targets);
    var results, usedCache, cacheAge;
    var cached, scannedAt, ok := cache.Get(key, now);
    if ok {
      results, usedCache, cacheAge := cached, true, FormatAge(now - scannedAt);
    } else {
      results := ScanTargets(targets, env, numCpu);
      usedCache, cacheAge := false, "";
      var success := HasSuccessfulResult(results);
      cache.Set(key, results, !hidden && success, now);
    }
    if isJson {
      return Json(results);
    }
    var overview := BuildOverview(cache, now);
    page := RenderResults(raw, hideValue, results, usedCache, cacheAge, overview);
  }

  /** The rendering tail of `handleScan`: the single-target error pages
      before the results page. */
  method RenderResults(raw: String, hideValue: String, results: seq<Check.CheckResult>,
                       usedCache: bool, cacheAge: String, overview: Overview) returns (page: Page)
    ensures page == ScanPage(raw, hideValue, false, results, usedCache, cacheAge, overview)
  {
    var invalid := InputValidationError(results);
    if invalid.Some? {
      return Form(raw, invalid.value, overview);
    }
    var unresolved := UnresolvedHostError(results);
    if unresolved.Some? {
      return Form(raw, unresolved.value, overview);
    }
    page := Report(raw, HideRequested(hideValue), results, usedCache, cacheAge, overview);
  }

  /** Serving never probes while the cached results are live: a hit keeps
      the cache and renders the stored results. A miss stores the fresh
      results; when none of them is supported or hiding was asked for, the
      recent list is left as it was, and otherwise they head the recent
      panel of the page. */
  lemma ServedSpec(targets: seq<String>, raw: String, hideValue: String, isJson: bool, now: int, env: Check.Env,
                   data: map<String, Cache.CacheEntry>, keys: seq<String>,
                   data': map<String, Cache.CacheEntry>, keys': seq<String>, page: Page)
    requires Cache.Distinct(keys) && |keys| <= Cache.MaxRecentKeys
    requires Served(targets, raw, hideValue, isJson, now, env, data, keys, data', keys', page)
    ensures var key := CacheKey(targets);
      var hit := key in data && Cache.Live(data[key], now);
      (hit ==> data' == data && keys' == keys
               && (isJson ==> page == Json(data[key].results)))
      && (!hit ==>
            key in data' && data'[key].results == FreshResults(targets, env) && data'[key].scannedAt == now
            && (isJson ==> page == Json(FreshResults(targets, env))))
      && (!hit && (HideRequested(hideValue) || !AnySupported(FreshResults(targets, env))) ==> keys' == keys)
      && (!hit && !HideRequested(hideValue) && AnySupported(FreshResults(targets, env)) ==>
            keys'[|keys'| - 1] == key
            && OverviewOf(keys', data', now).recent
               == Sequences.Take(Cache.EntrySnapshots(data'[key]) + Cache.Newest(keys'[..|keys'| - 1], data', now), RecentLimit))
  {
    var key := CacheKey(targets);
    var results := FreshResults(targets, env);
    if !(key in data && Cache.Live(data[key], now)) && IncludeInRecent(hideValue, results) {
      Cache.TouchSpec(keys, key);
      Cache.StoredScanShownFirst(keys, data, key, results, now);
    }
  }

  /** A single refused target, scanned afresh, is answered with the form and
      the reason it was refused, and is kept off the recent list whatever
      the hide switch says. */
  lemma RefusedTargetPage(raw: String, hideValue: String, target: String, env: Check.Env, overview: Overview)
    requires Check.NormalizeURL(target, env).Failure?
    ensures var results := FreshResults([target], env);
      !IncludeInRecent(hideValue, results)
      && ScanPage(raw, hideValue, false, results, false, "", overview)
         == Form(raw, "The hostname " + Quote(target) + " is invalid and cannot be scanned (invalid URL: "
                      + Check.NormalizeURL(target, env).error + ").", overview)
  {
    var results := FreshResults([target], env);
    assert results == [Check.CheckOf(target, "", env).0];
    InputValidationErrorForCheck(target, env, []);
    SuccessOfCheck(target, env);
  }
}
