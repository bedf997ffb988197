/** The request and display helpers that cmd/http1/web.go and
    cmd/httpver/web.go share line for line: reading the `t` parameter into a
    target list, the cache key, the best/worst panel filter, ranking by score,
    the "scanned N minutes ago" text, the status title and the version test
    the templates use. */
module WebHelpers {
  import opened Strings
  import opened Sequences
  import Check
  import Cache

  /** At most this many targets per web request (`maxWebTargets`). */
  const MaxWebTargets := 5

  // ------------------------------------------------------ parseTargetsParam

  /** What `parseTargetsParam` returns: the comma-separated pieces of the
      trimmed input, each trimmed, blanks dropped, and of the pieces equal up
      to letter case only the first kept, as spelled. */
  function TargetsOf(raw: String): seq<String> {
    DedupBy(NonBlank(Split(TrimSpace(raw), ',')), ToLower)
  }

  /** `parseTargetsParam`. */
  method ParseTargetsParam(raw: String) returns (targets: seq<String>)
    ensures targets == TargetsOf(raw)
  {
    var trimmed := TrimSpace(raw);
    if trimmed == "" {
      BlankTargets(trimmed);
      return [];
    }
    targets := FirstOfEachTarget(Split(trimmed, ','));
  }

  /** The loop of `parseTargetsParam` over the comma-separated pieces: trims
      each, skips blanks and keeps the first spelling of each target up to
      letter case, remembering the lower-cased forms seen. */
  method FirstOfEachTarget(parts: seq<String>) returns (targets: seq<String>)
    ensures targets == DedupBy(NonBlank(parts), ToLower)
  {
    ghost var spec := DedupBy(NonBlank(parts), ToLower);
    assert parts[0..] == parts;
    targets := [];
    var seen: set<String> := {};
    var i := 0;
    while i < |parts|
      invariant 0 <= i <= |parts|
      invariant targets + DedupFrom(NonBlank(parts[i..]), ToLower, seen) == spec
    {
      var p := TrimSpace(parts[i]);
      ghost var rest := NonBlank(parts[i + 1..]);
      if p != "" {
        var lower := ToLower(p);
        if lower !in seen {
          ghost var later := DedupFrom(rest, ToLower, seen + {lower});
          assert (targets + [p]) + later == spec by {
            TargetsStep(parts, i, seen);
            assert targets + ([p] + later) == (targets + [p]) + later;
          }
          seen := seen + {lower};
          targets := targets + [p];
        } else {
          assert targets + DedupFrom(rest, ToLower, seen) == spec by {
            TargetsStep(parts, i, seen);
          }
        }
      } else {
        assert targets + DedupFrom(rest, ToLower, seen) == spec by {
          TargetsStep(parts, i, seen);
        }
      }
      i := i + 1;
    }
    assert parts[i..] == [];
  }

  /** Input that is blank after trimming holds no target. */
  lemma BlankTargets(trimmed: String)
    requires trimmed == ""
    ensures DedupBy(NonBlank(Split(trimmed, ',')), ToLower) == []
  {
    assert Split(trimmed, ',') == [trimmed];
    assert NonBlank([trimmed]) == [] by {
      assert [trimmed][1..] == [];
    }
  }

  /** One step of the `parseTargetsParam` loop, on the specification. */
  lemma TargetsStep(parts: seq<String>, i: int, seen: set<String>)
    requires 0 <= i < |parts|
    ensures var p, rest := TrimSpace(parts[i]), NonBlank(parts[i + 1..]);
      DedupFrom(NonBlank(parts[i..]), ToLower, seen)
        == if p == "" || ToLower(p) in seen then DedupFrom(rest, ToLower, seen)
           else [p] + DedupFrom(rest, ToLower, seen + {ToLower(p)})
  {
    var p, rest := TrimSpace(parts[i]), NonBlank(parts[i + 1..]);
    NonBlankStep(parts, i);
    if p != "" {
      DedupCons(p, rest, ToLower, seen);
    } else {
      assert NonBlank(parts[i..]) == rest;
    }
  }

  /** Trimming a piece that holds no comma leaves none. */
  lemma TrimSpaceKeepsCommaFree(s: String)
    requires ',' !in s
    ensures ',' !in TrimSpace(s) && ',' !in ToLower(TrimSpace(s))
  {
    TrimSpaceSpec(s);
    var r, lo := TrimSpace(s), |s| - |TrimLeft(s)|;
    forall i | 0 <= i < |r| ensures r[i] != ',' {
      assert r[i] == s[lo + i];
    }
  }

  lemma {:induction false} NonBlankCommaFree(parts: seq<String>)
    requires forall k :: 0 <= k < |parts| ==> ',' !in parts[k]
    ensures forall i :: 0 <= i < |NonBlank(parts)| ==> ',' !in NonBlank(parts)[i]
    decreases |parts|
  {
    if |parts| > 0 {
      TrimSpaceKeepsCommaFree(parts[0]);
      NonBlankCommaFree(parts[1..]);
    }
  }

  /** The targets read from a request: each is trimmed, non-empty and free of
      commas; no two are equal up to letter case; they are the non-blank
      pieces in input order with later case-insensitive repeats dropped, and
      every piece is represented by the first spelling of it. */
  lemma TargetsOfSpec(raw: String)
    ensures var t, pieces := TargetsOf(raw), NonBlank(Split(TrimSpace(raw), ','));
      (forall i :: 0 <= i < |t| ==> t[i] != "" && TrimSpace(t[i]) == t[i] && ',' !in t[i])
      && DistinctKeys(t, ToLower)
      && IsSubsequence(t, pieces)
      && Keys(t, ToLower) == Keys(pieces, ToLower)
      && (forall i :: 0 <= i < |t| ==>
            exists j :: 0 <= j < |pieces| && pieces[j] == t[i] && ToLower(t[i]) !in Keys(pieces[..j], ToLower))
  {
    var t, pieces := TargetsOf(raw), NonBlank(Split(TrimSpace(raw), ','));
    DedupBySpec(pieces, ToLower);
    SubsequenceElements(t, pieces);
    NonBlankTrimmed(Split(TrimSpace(raw), ','));
    NonBlankCommaFree(Split(TrimSpace(raw), ','));
    forall i | 0 <= i < |t| ensures t[i] != "" && TrimSpace(t[i]) == t[i] && ',' !in t[i] {
      assert t[i] in pieces;
      var j :| 0 <= j < |pieces| && pieces[j] == t[i];
    }
  }

  // --------------------------------------------------------------- cacheKey

  /** Each target lower-cased and trimmed, in order. */
  function Normalized(targets: seq<String>): (r: seq<String>)
    ensures |r| == |targets|
    ensures forall i :: 0 <= i < |r| ==> r[i] == ToLower(TrimSpace(targets[i]))
  {
    seq(|targets|, i requires 0 <= i < |targets| => ToLower(TrimSpace(targets[i])))
  }

  /** `cacheKey`. */
  function CacheKey(targets: seq<String>): String {
    Join(Normalized(targets), ',')
  }

  /** The key loses nothing but letter case and surrounding white space: for
      non-empty lists of comma-free targets (what `TargetsOf` yields), equal
      keys mean equal normalised lists, position by position. */
  lemma CacheKeyDeterminesTargets(a: seq<String>, b: seq<String>)
    requires |a| >= 1 && |b| >= 1
    requires forall i :: 0 <= i < |a| ==> ',' !in a[i]
    requires forall i :: 0 <= i < |b| ==> ',' !in b[i]
    requires CacheKey(a) == CacheKey(b)
    ensures Normalized(a) == Normalized(b)
  {
    forall i | 0 <= i < |a| ensures ',' !in Normalized(a)[i] {
      TrimSpaceKeepsCommaFree(a[i]);
    }
    forall i | 0 <= i < |b| ensures ',' !in Normalized(b)[i] {
      TrimSpaceKeepsCommaFree(b[i]);
    }
    SplitJoin(Normalized(a), ',');
    SplitJoin(Normalized(b), ',');
  }

  /** The key is order-sensitive: two targets that differ after normalising
      give different keys in the two orders. */
  lemma CacheKeyOrderSensitive(x: String, y: String)
    requires ',' !in x && ',' !in y
    requires ToLower(TrimSpace(x)) != ToLower(TrimSpace(y))
    ensures CacheKey([x, y]) != CacheKey([y, x])
  {
    if CacheKey([x, y]) == CacheKey([y, x]) {
      CacheKeyDeterminesTargets([x, y], [y, x]);
    }
  }

  /** Spellings that differ only in letter case or surrounding white space
      share one key. */
  lemma CacheKeyIgnoresCase(a: seq<String>, b: seq<String>)
    requires |a| == |b|
    requires forall i :: 0 <= i < |a| ==> EqualFold(TrimSpace(a[i]), TrimSpace(b[i]))
    ensures CacheKey(a) == CacheKey(b)
  {
    assert Normalized(a) == Normalized(b);
  }

  // ----------------------------------------------------------- filterByGrade

  function GradeIs(want: String): Cache.Snapshot -> bool {
    (s: Cache.Snapshot) => s.grade == want
  }

  /** `filterByGrade`: the first `limit` rows with grade `want`, in order. */
  method FilterByGrade(src: seq<Cache.Snapshot>, want: String, limit: int) returns (out: seq<Cache.Snapshot>)
    ensures limit <= 0 ==> out == []
    ensures limit > 0 ==> out == Take(Filter(src, GradeIs(want)), limit)
  {
    if limit <= 0 || |src| == 0 {
      return [];
    }
    var p := GradeIs(want);
    out := [];
    var i := 0;
    while i < |src|
      invariant 0 <= i <= |src|
      invariant out == Filter(src[..i], p)
      invariant |out| < limit
    {
      FilterPrefixStep(src, i, p);
      if src[i].grade == want {
        out := out + [src[i]];
        if |out| >= limit {
          FilterTakeReached(src, i + 1, p, limit);
          return;
        }
      }
      i := i + 1;
    }
    assert src[..|src|] == src;
  }

  /** What the panel filter returns is an order-preserving selection of its
      input, all of the wanted grade, at most `limit` long, and it misses no
      row of that grade unless the limit is reached. */
  lemma GradeFilterSpec(src: seq<Cache.Snapshot>, want: String, limit: nat)
    ensures var out := Take(Filter(src, GradeIs(want)), limit);
      IsSubsequence(out, src)
      && |out| <= limit
      && (forall i :: 0 <= i < |out| ==> out[i].grade == want)
      && (|out| < limit ==> forall s :: s in src && s.grade == want ==> s in out)
  {
    var f := Filter(src, GradeIs(want));
    var out := Take(f, limit);
    FilterSubsequence(src, GradeIs(want));
    PrefixSubsequence(f, |out|);
    SubsequenceTransitive(out, f, src);
    forall i | 0 <= i < |out| ensures out[i].grade == want {
      assert out[i] == f[i] && GradeIs(want)(f[i]);
    }
    if |out| < limit {
      FilterKeepsPassing(src, GradeIs(want));
    }
  }

  lemma {:induction false} FilterKeepsPassing<T>(s: seq<T>, p: T -> bool)
    ensures forall x :: x in s && p(x) ==> x in Filter(s, p)
    decreases |s|
  {
    if |s| > 0 {
      FilterKeepsPassing(s[1..], p);
      forall x | x in s && p(x) ensures x in Filter(s, p) {
        if x != s[0] {
          assert x in s[1..];
        }
      }
    }
  }

  // -------------------------------------------------------- selectTopByScore

  /** `a` may stand before `b` in the requested order. */
  predicate Precedes(a: Cache.Snapshot, b: Cache.Snapshot, descending: bool) {
    if descending then a.score >= b.score else a.score <= b.score
  }

  ghost predicate SortedByScore(s: seq<Cache.Snapshot>, descending: bool) {
    forall i, j :: 0 <= i < j < |s| ==> Precedes(s[i], s[j], descending)
  }

  /** Puts `x` in front of the first element it may precede; ahead of equal
      scores, since `x` came earlier in the input. */
  function Insert(x: Cache.Snapshot, ys: seq<Cache.Snapshot>, descending: bool): (r: seq<Cache.Snapshot>)
    ensures |r| == |ys| + 1
    ensures multiset(r) == multiset(ys) + multiset{x}
  {
    if |ys| == 0 || Precedes(x, ys[0], descending) then [x] + ys
    else
      var rest := Insert(x, ys[1..], descending);
      assert ys == [ys[0]] + ys[1..];
      [ys[0]] + rest
  }

  /** The stable sort `sort.SliceStable` performs, by score. */
  function SortByScore(s: seq<Cache.Snapshot>, descending: bool): (r: seq<Cache.Snapshot>)
    ensures |r| == |s|
    ensures multiset(r) == multiset(s)
  {
    if |s| == 0 then []
    else
      assert s == [s[0]] + s[1..];
      Insert(s[0], SortByScore(s[1..], descending), descending)
  }

  /** `selectTopByScore`. */
  function SelectTopByScore(src: seq<Cache.Snapshot>, descending: bool, limit: int): seq<Cache.Snapshot> {
    if limit <= 0 || |src| == 0 then [] else Take(SortByScore(src, descending), limit)
  }

  /** The rows of `s` with score `v`, in order. */
  function WithScore(s: seq<Cache.Snapshot>, v: int): (r: seq<Cache.Snapshot>)
    ensures |r| <= |s|
  {
    if |s| == 0 then [] else (if s[0].score == v then [s[0]] else []) + WithScore(s[1..], v)
  }

  lemma WithScoreCons(x: Cache.Snapshot, s: seq<Cache.Snapshot>, v: int)
    ensures WithScore([x] + s, v) == (if x.score == v then [x] else []) + WithScore(s, v)
  {
    assert ([x] + s)[1..] == s;
  }

  /** Insertion adds `x` and nothing else. */
  lemma {:induction false} InsertMembers(x: Cache.Snapshot, ys: seq<Cache.Snapshot>, descending: bool)
    ensures forall z :: z in Insert(x, ys, descending) <==> z == x || z in ys
    decreases |ys|
  {
    if |ys| > 0 && !Precedes(x, ys[0], descending) {
      InsertMembers(x, ys[1..], descending);
      assert ys == [ys[0]] + ys[1..];
    }
  }

  lemma {:induction false} InsertSorted(x: Cache.Snapshot, ys: seq<Cache.Snapshot>, descending: bool)
    requires SortedByScore(ys, descending)
    ensures SortedByScore(Insert(x, ys, descending), descending)
    decreases |ys|
  {
    if |ys| == 0 || Precedes(x, ys[0], descending) {
      var r := [x] + ys;
      forall i, j | 0 <= i < j < |r| ensures Precedes(r[i], r[j], descending) {
        if i > 0 {
          assert r[i] == ys[i - 1] && r[j] == ys[j - 1];
        } else {
          assert r[j] == ys[j - 1];
          assert Precedes(ys[0], ys[j - 1], descending) || j == 1;
        }
      }
    } else {
      var tail := ys[1..];
      assert SortedByScore(tail, descending) by {
        forall i, j | 0 <= i < j < |tail| ensures Precedes(tail[i], tail[j], descending) {
          assert tail[i] == ys[i + 1] && tail[j] == ys[j + 1];
        }
      }
      InsertSorted(x, tail, descending);
      InsertMembers(x, tail, descending);
      var rest := Insert(x, tail, descending);
      var r := [ys[0]] + rest;
      forall z | z in rest ensures Precedes(ys[0], z, descending) {
        if z != x {
          var k :| 0 <= k < |tail| && tail[k] == z;
          assert ys[k + 1] == z;
        }
      }
      forall i, j | 0 <= i < j < |r| ensures Precedes(r[i], r[j], descending) {
        assert r[j] == rest[j - 1] && r[j] in rest;
        if i > 0 {
          assert r[i] == rest[i - 1];
        }
      }
    }
  }

  /** Insertion keeps, for every score, the order of the rows with that score. */
  lemma {:induction false} InsertStable(x: Cache.Snapshot, ys: seq<Cache.Snapshot>, descending: bool, v: int)
    ensures WithScore(Insert(x, ys, descending), v) == WithScore([x] + ys, v)
    decreases |ys|
  {
    if |ys| > 0 && !Precedes(x, ys[0], descending) {
      var y, tail := ys[0], ys[1..];
      InsertStable(x, tail, descending, v);
      assert ys == [y] + tail;
      WithScoreCons(y, Insert(x, tail, descending), v);
      WithScoreCons(x, tail, v);
      WithScoreCons(x, ys, v);
      WithScoreCons(y, tail, v);
    }
  }

  /** The ranking is sorted by score, holds the same rows as its input, and
      keeps rows of equal score in their input order (stability). */
  lemma {:induction false} SortByScoreSpec(s: seq<Cache.Snapshot>, descending: bool, v: int)
    ensures SortedByScore(SortByScore(s, descending), descending)
    ensures multiset(SortByScore(s, descending)) == multiset(s)
    ensures WithScore(SortByScore(s, descending), v) == WithScore(s, v)
    decreases |s|
  {
    if |s| > 0 {
      SortByScoreSpec(s[1..], descending, v);
      var sorted := SortByScore(s[1..], descending);
      InsertSorted(s[0], sorted, descending);
      InsertStable(s[0], sorted, descending, v);
      WithScoreCons(s[0], sorted, v);
      WithScoreCons(s[0], s[1..], v);
      assert s == [s[0]] + s[1..];
    }
  }

  /** A prefix of a ranking is itself sorted, drawn from the ranking, and
      ahead of everything after it. */
  lemma RankingPrefix(all: seq<Cache.Snapshot>, n: nat, descending: bool)
    requires SortedByScore(all, descending) && n <= |all|
    ensures var r := all[..n];
      SortedByScore(r, descending)
      && multiset(r) <= multiset(all)
      && (forall i, j :: 0 <= i < |r| <= j < |all| ==> Precedes(r[i], all[j], descending))
  {
    var r := all[..n];
    assert all == r + all[n..];
    assert multiset(all) == multiset(r) + multiset(all[n..]);
  }

  /** The selection is the top `limit` of the stable ranking: sorted, at most
      `limit` rows, each an input row, and no input row left out ranks
      strictly ahead of one kept. */
  lemma SelectTopByScoreSpec(src: seq<Cache.Snapshot>, descending: bool, limit: int)
    requires limit > 0
    ensures var r, all := SelectTopByScore(src, descending, limit), SortByScore(src, descending);
      SortedByScore(r, descending)
      && |r| == (if |src| <= limit then |src| else limit)
      && multiset(r) <= multiset(src)
      && (forall i, j :: 0 <= i < |r| <= j < |all| ==> Precedes(r[i], all[j], descending))
  {
    var all := SortByScore(src, descending);
    SortByScoreSpec(src, descending, 0);
    var r := SelectTopByScore(src, descending, limit);
    RankingPrefix(all, |r|, descending);
    if |src| == 0 {
      assert r == [] == all[..0];
    } else {
      assert r == all[..|r|];
    }
  }

  // -------------------------------------------------------- formatAge/plural

  const Second := 1000000000
  const Minute := 60 * Second
  const Hour := 60 * Minute
  const Day := 24 * Hour

  /** Go's integer conversion of a quotient: truncation toward zero. */
  function TruncDiv(a: int, b: int): int
    requires b > 0
  {
    if a >= 0 then a / b else -((-a) / b)
  }

  /** The buckets `formatAge` reports a duration in. */
  datatype Age = JustNow | SecondsAgo(n: int) | MinutesAgo(n: int) | HoursAgo(n: int) | DaysAgo(n: int)

  /** The bucket of a duration in nanoseconds. */
  function AgeOf(d: int): Age {
    if d < Minute then
      var secs := TruncDiv(d, Second);
      if secs <= 1 then JustNow else SecondsAgo(secs)
    else if d < Hour then MinutesAgo(TruncDiv(d, Minute))
    else if d < Day then HoursAgo(TruncDiv(d, Hour))
    else DaysAgo(TruncDiv(TruncDiv(d, Hour), 24))
  }

  /** `plural`. */
  function Plural(n: int): (s: String)
    ensures s == "" <==> n == 1
  {
    if n == 1 then "" else "s"
  }

  function RenderAge(a: Age): String {
    match a
    case JustNow => "just now"
    case SecondsAgo(n) => (if n >= 0 then NatToString(n) else "-" + NatToString(-n)) + "s ago"
    case MinutesAgo(n) => (if n >= 0 then NatToString(n) else "-" + NatToString(-n)) + " minute" + Plural(n) + " ago"
    case HoursAgo(n) => (if n >= 0 then NatToString(n) else "-" + NatToString(-n)) + " hour" + Plural(n) + " ago"
    case DaysAgo(n) => (if n >= 0 then NatToString(n) else "-" + NatToString(-n)) + " day" + Plural(n) + " ago"
  }

  /** `formatAge`. */
  function FormatAge(d: int): String {
    RenderAge(AgeOf(d))
  }

  /** Each bucket holds the whole number of its unit that fits in the
      duration: "just now" below two seconds, whole seconds below a minute,
      whole minutes below an hour, whole hours below a day, whole days
      beyond. */
  lemma AgeOfSpec(d: int)
    ensures AgeOf(d) == JustNow <==> d < 2 * Second
    ensures AgeOf(d).SecondsAgo? ==>
      2 <= AgeOf(d).n < 60 && AgeOf(d).n * Second <= d < (AgeOf(d).n + 1) * Second
    ensures AgeOf(d).MinutesAgo? <==> Minute <= d < Hour
    ensures AgeOf(d).MinutesAgo? ==>
      1 <= AgeOf(d).n < 60 && AgeOf(d).n * Minute <= d < (AgeOf(d).n + 1) * Minute
    ensures AgeOf(d).HoursAgo? <==> Hour <= d < Day
    ensures AgeOf(d).HoursAgo? ==>
      1 <= AgeOf(d).n < 24 && AgeOf(d).n * Hour <= d < (AgeOf(d).n + 1) * Hour
    ensures AgeOf(d).DaysAgo? <==> Day <= d
    ensures AgeOf(d).DaysAgo? ==>
      1 <= AgeOf(d).n && AgeOf(d).n * Day <= d < (AgeOf(d).n + 1) * Day
  {
    if Day <= d {
      var h := d / Hour;
      assert h * Hour <= d < (h + 1) * Hour;
      var n := h / 24;
      assert n * 24 <= h < (n + 1) * 24;
      assert n * Day == (n * 24) * Hour;
      assert (n + 1) * Day == ((n + 1) * 24) * Hour;
    }
  }

  /** A count of one is written in the singular, any other in the plural. */
  lemma FormatAgeSingular(d: int)
    requires Minute <= d < 2 * Minute
    ensures FormatAge(d) == "1 minute ago"
  {
    assert AgeOf(d) == MinutesAgo(1);
  }

  // --------------------------------------------- statusTitle and hasVersion

  /** `statusTitle`. */
  function StatusTitle(v: Check.VersionResult): String {
    if v.supported then "supported"
    else if v.error then "error / probe failed"
    else "not supported"
  }

  /** The title and the emoji of a row tell the same three-way story. */
  lemma StatusTitleMatchesEmoji(a: Check.VersionResult, b: Check.VersionResult)
    ensures StatusTitle(a) == StatusTitle(b) <==> Check.StatusEmoji(a) == Check.StatusEmoji(b)
  {
  }

  /** `hasVersion`: some row is the wanted version and supported. */
  function HasVersion(results: seq<Check.VersionResult>, want: String): (b: bool)
    ensures b <==> exists i :: 0 <= i < |results| && results[i].version == want && results[i].supported
  {
    if |results| == 0 then false
    else if results[0].version == want && results[0].supported then true
    else
      var b := HasVersion(results[1..], want);
      assert b ==> exists i :: 0 <= i < |results| && results[i].version == want && results[i].supported by {
        if b {
          var i :| 0 <= i < |results[1..]| && results[1..][i].version == want && results[1..][i].supported;
          assert results[i + 1] == results[1..][i];
        }
      }
      assert (exists i :: 0 <= i < |results| && results[i].version == want && results[i].supported) ==> b by {
        if exists i :: 0 <= i < |results| && results[i].version == want && results[i].supported {
          var i :| 0 <= i < |results| && results[i].version == want && results[i].supported;
          assert i != 0;
          assert results[1..][i - 1] == results[i];
        }
      }
      b
  }

  /** Looking at one more row adds exactly that row's answer. */
  lemma HasVersionAppend(results: seq<Check.VersionResult>, vr: Check.VersionResult, want: String)
    ensures HasVersion(results + [vr], want) == (HasVersion(results, want) || (vr.version == want && vr.supported))
  {
    var all := results + [vr];
    if HasVersion(results, want) {
      var i :| 0 <= i < |results| && results[i].version == want && results[i].supported;
      assert all[i] == results[i];
    }
    if HasVersion(all, want) && !(vr.version == want && vr.supported) {
      var i :| 0 <= i < |all| && all[i].version == want && all[i].supported;
      assert i < |results| && all[i] == results[i];
    }
    if vr.version == want && vr.supported {
      assert all[|results|] == vr;
    }
  }

  /** The four results of an accepted target, in their fixed version slots. */
  predicate FourSlots(rs: seq<Check.VersionResult>) {
    |rs| == 4
    && rs[0].version == "HTTP/1.0" && rs[1].version == "HTTP/1.1"
    && rs[2].version == "HTTP/2.0" && rs[3].version == "HTTP/3.0"
  }

  /** On results in the fixed slots, `hasVersion` reads the slot of that
      version. */
  lemma HasVersionOfSlots(rs: seq<Check.VersionResult>)
    requires FourSlots(rs)
    ensures HasVersion(rs, "HTTP/3.0") <==> rs[3].supported
    ensures HasVersion(rs, "HTTP/2.0") <==> rs[2].supported
    ensures HasVersion(rs, "HTTP/1.1") <==> rs[1].supported
    ensures HasVersion(rs, "HTTP/1.0") <==> rs[0].supported
  {
  }

  /** On the four results of an accepted target, `hasVersion` reads the
      fixed slot of that version. */
  lemma HasVersionReadsSlot(target: String, overridePort: String, env: Check.Env)
    requires Check.NormalizeURL(target, env).Success?
    requires env.parse(Check.NormalizeURL(target, env).value).Success?
    ensures var rs := Check.CheckOf(target, overridePort, env).0.results;
      FourSlots(rs)
      && (HasVersion(rs, "HTTP/3.0") <==> rs[3].supported)
      && (HasVersion(rs, "HTTP/2.0") <==> rs[2].supported)
      && (HasVersion(rs, "HTTP/1.1") <==> rs[1].supported)
      && (HasVersion(rs, "HTTP/1.0") <==> rs[0].supported)
  {
    Check.AcceptedTargetShape(target, overridePort, env);
    HasVersionOfSlots(Check.CheckOf(target, overridePort, env).0.results);
  }
}
