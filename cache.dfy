/** The in-memory result cache of the web front ends (the `resultCache` type
    in cmd/http1/web.go, identical in cmd/httpver/web.go): scan results keyed
    by the normalised target list, valid for four hours, plus a most-recent-
    last list of at most 32 keys that feeds the "recent scans" panel.

    Time is a parameter: `now` is the wall clock in nanoseconds, as
    `time.Now()` would report it. The mutex is not modelled; every method runs
    as one atomic step, which is what the lock gives the Go code. */
module Cache {
  import opened Strings
  import opened Sequences
  import Check

  /** Four hours, in nanoseconds. */
  const CacheTtl: int := 4 * 60 * 60 * 1000000000

  const MaxRecentKeys := 32

  datatype CacheEntry = CacheEntry(
    results: seq<Check.CheckResult>,
    scannedAt: int,
    expiresAt: int,
    hidden: bool)

  /** One row of the "recent scans" panel. */
  datatype Snapshot = Snapshot(
    target: String,
    url: String,
    port: String,
    results: seq<Check.VersionResult>,
    scannedAt: int,
    score: int,
    grade: String)

  /** An entry is still served at `now` unless it expired strictly before
      (`ExpiresAt.Before(now)`). */
  predicate Live(e: CacheEntry, now: int) {
    !(e.expiresAt < now)
  }

  /** The entries the expiry sweep keeps. */
  function Sweep(data: map<String, CacheEntry>, now: int): map<String, CacheEntry> {
    map k | k in data && Live(data[k], now) :: data[k]
  }

  /** The entry `set` stores. */
  function NewEntry(results: seq<Check.CheckResult>, includeInRecent: bool, now: int): CacheEntry {
    CacheEntry(results, now, now + CacheTtl, !includeInRecent)
  }

  /** The recent-key list with the first occurrence of `key` spliced out. */
  function RemoveFirst(keys: seq<String>, key: String): (r: seq<String>)
    ensures |r| == if key in keys then |keys| - 1 else |keys|
  {
    if |keys| == 0 then []
    else if keys[0] == key then keys[1..]
    else [keys[0]] + RemoveFirst(keys[1..], key)
  }

  /** The recent-key list after `key` is used: moved (or added) to the end,
      then cut to the 32 most recent. */
  function Touch(keys: seq<String>, key: String): seq<String> {
    var appended := RemoveFirst(keys, key) + [key];
    if |appended| > MaxRecentKeys then appended[|appended| - MaxRecentKeys..] else appended
  }

  ghost predicate Distinct(keys: seq<String>) {
    forall i, j :: 0 <= i < j < |keys| ==> keys[i] != keys[j]
  }

  function ToSnapshot(cr: Check.CheckResult, scannedAt: int): Snapshot {
    Snapshot(cr.target, cr.url, cr.port, cr.results, scannedAt, cr.score, cr.grade)
  }

  /** The panel rows of one entry, one per target, in the entry's order. */
  function EntrySnapshots(e: CacheEntry): (r: seq<Snapshot>)
    ensures |r| == |e.results|
  {
    seq(|e.results|, i requires 0 <= i < |e.results| => ToSnapshot(e.results[i], e.scannedAt))
  }

  /** The key's entry may be shown: present, live and not hidden. */
  predicate Visible(data: map<String, CacheEntry>, key: String, now: int) {
    key in data && Live(data[key], now) && !data[key].hidden
  }

  /** The rows of the visible entries of `keys`, the last key's first. */
  function Newest(keys: seq<String>, data: map<String, CacheEntry>, now: int): seq<Snapshot>
    decreases |keys|
  {
    if |keys| == 0 then []
    else Newest(keys[1..], data, now) + (if Visible(data, keys[0], now) then EntrySnapshots(data[keys[0]]) else [])
  }

  class ResultCache {
    var data: map<String, CacheEntry>
    var recentKeys: seq<String>

    /** The recent list holds each key once and at most 32 of them. */
    ghost predicate Valid()
      reads this
    {
      Distinct(recentKeys) && |recentKeys| <= MaxRecentKeys
    }

    /** `newResultCache`. */
    constructor()
      ensures data == map[] && recentKeys == []
      ensures Valid()
    {
      data := map[];
      recentKeys := [];
    }

    /** `get`: the results and scan time stored under `key`, unless the
        entry is missing or expired. */
    method Get(key: String, now: int) returns (results: seq<Check.CheckResult>, scannedAt: int, ok: bool)
      ensures ok <==> key in data && Live(data[key], now)
      ensures ok ==> results == data[key].results && scannedAt == data[key].scannedAt
      ensures !ok ==> results == [] && scannedAt == 0
    {
      if key !in data || data[key].expiresAt < now {
        return [], 0, false;
      }
      var entry := data[key];
      return entry.results, entry.scannedAt, true;
    }

    /** `set`: drops expired entries, stores the results for four hours, and
        when they may be shown moves `key` to the most recent end of the
        recent list. */
    method Set(key: String, results: seq<Check.CheckResult>, includeInRecent: bool, now: int)
      requires Valid()
      modifies this
      ensures Valid()
      ensures data == Sweep(old(data), now)[key := NewEntry(results, includeInRecent, now)]
      ensures recentKeys == if includeInRecent then Touch(old(recentKeys), key) else old(recentKeys)
    {
      DropExpired(now);
      data := data[key := NewEntry(results, includeInRecent, now)];
      if includeInRecent {
        MoveToEnd(key);
      }
    }

    /** The sweep loop of `set`: every expired entry is deleted. */
    method DropExpired(now: int)
      modifies this
      ensures data == Sweep(old(data), now)
      ensures recentKeys == old(recentKeys)
    {
      var pending := data.Keys;
      while pending != {}
        invariant pending <= old(data).Keys
        invariant data == map k | k in old(data) && (k in pending || Live(old(data)[k], now)) :: old(data)[k]
        invariant recentKeys == old(recentKeys)
        decreases pending
      {
        var k :| k in pending;
        if data[k].expiresAt < now {
          data := data - {k};
        }
        pending := pending - {k};
      }
    }

    /** The recent-list update of `set`: `key` spliced out where it was,
        appended, and the list cut to the 32 most recent. */
    method MoveToEnd(key: String)
      requires Valid()
      modifies this
      ensures Valid()
      ensures recentKeys == Touch(old(recentKeys), key)
      ensures data == old(data)
    {
      var keys := recentKeys;
      var i := 0;
      while i < |keys| && keys[i] != key
        invariant 0 <= i <= |keys|
        invariant key !in keys[..i]
      {
        i := i + 1;
      }
      RemoveFirstAt(keys, key, i);
      if i < |keys| {
        keys := keys[..i] + keys[i + 1..];
      }
      keys := keys + [key];
      if |keys| > MaxRecentKeys {
        keys := keys[|keys| - MaxRecentKeys..];
      }
      TouchSpec(recentKeys, key);
      recentKeys := keys;
    }

    /** `recentSnapshots`: up to `limit` panel rows, walking the recent list
        from the newest key and skipping missing, expired and hidden entries. */
    method RecentSnapshots(limit: int, now: int) returns (snapshots: seq<Snapshot>)
      ensures limit <= 0 ==> snapshots == []
      ensures limit > 0 ==> snapshots == Take(Newest(recentKeys, data, now), limit)
    {
      if limit <= 0 {
        return [];
      }
      snapshots := [];
      var i := |recentKeys|;
      while i > 0 && |snapshots| < limit
        invariant 0 <= i <= |recentKeys|
        invariant snapshots == Take(Newest(recentKeys[i..], data, now), limit)
      {
        i := i - 1;
        var key := recentKeys[i];
        NewestStep(recentKeys, i, data, now);
        if key in data && !(data[key].expiresAt < now) && !data[key].hidden {
          snapshots := AppendEntryRows(snapshots, data[key], limit);
        }
      }
      if i > 0 {
        NewestAppend(recentKeys[..i], recentKeys[i..], data, now);
        assert recentKeys[..i] + recentKeys[i..] == recentKeys;
        TakeFull(Newest(recentKeys[i..], data, now), Newest(recentKeys[..i], data, now), limit);
      }
    }
  }

  /** The inner loop of `recentSnapshots`: the rows of one entry appended
      until `limit` rows are collected. */
  method AppendEntryRows(base: seq<Snapshot>, entry: CacheEntry, limit: int) returns (snapshots: seq<Snapshot>)
    requires |base| < limit
    ensures snapshots == Take(base + EntrySnapshots(entry), limit)
  {
    ghost var rows := EntrySnapshots(entry);
    snapshots := base;
    var j := 0;
    while j < |entry.results|
      invariant 0 <= j <= |entry.results|
      invariant snapshots == base + rows[..j]
      invariant |snapshots| < limit
    {
      snapshots := snapshots + [ToSnapshot(entry.results[j], entry.scannedAt)];
      j := j + 1;
      assert rows[..j] == rows[..j - 1] + [rows[j - 1]];
      if |snapshots| >= limit {
        TakeFull(base + rows[..j], rows[j..], limit);
        assert base + rows[..j] + rows[j..] == base + rows;
        return;
      }
    }
    assert rows[..|rows|] == rows;
  }

  /** Walking one key further back. */
  lemma NewestStep(keys: seq<String>, i: int, data: map<String, CacheEntry>, now: int)
    requires 0 <= i < |keys|
    ensures Newest(keys[i..], data, now)
      == Newest(keys[i + 1..], data, now) + (if Visible(data, keys[i], now) then EntrySnapshots(data[keys[i]]) else [])
  {
    assert keys[i..][1..] == keys[i + 1..];
  }

  // ------------------------------------------------------------- lemmas

  /** Where the splice loop stops tells what `RemoveFirst` keeps. */
  lemma {:induction false} RemoveFirstAt(keys: seq<String>, key: String, i: nat)
    requires i <= |keys| && key !in keys[..i]
    requires i < |keys| ==> keys[i] == key
    ensures i < |keys| ==> RemoveFirst(keys, key) == keys[..i] + keys[i + 1..]
    ensures i == |keys| ==> RemoveFirst(keys, key) == keys
    decreases i
  {
    if i == 0 {
      if |keys| > 0 {
        assert keys[..0] + keys[1..] == keys[1..];
      }
    } else {
      assert keys[0] != key by { assert keys[0] == keys[..i][0]; }
      assert key !in keys[1..][..i - 1] by { assert keys[1..][..i - 1] == keys[..i][1..]; }
      RemoveFirstAt(keys[1..], key, i - 1);
      if i < |keys| {
        assert keys[..i] + keys[i + 1..] == [keys[0]] + (keys[1..][..i - 1] + keys[1..][i..]);
      } else {
        assert [keys[0]] + keys[1..] == keys;
      }
    }
  }

  /** Splicing out a key keeps every other key, in order, and no copy of that
      key when the list had one. */
  lemma {:induction false} RemoveFirstSpec(keys: seq<String>, key: String)
    requires Distinct(keys)
    ensures var r := RemoveFirst(keys, key);
      Distinct(r) && key !in r && (forall k :: k in r <==> k in keys && k != key)
      && IsSubsequence(r, keys)
    decreases |keys|
  {
    if |keys| > 0 {
      assert Distinct(keys[1..]) by {
        forall i, j | 0 <= i < j < |keys[1..]| ensures keys[1..][i] != keys[1..][j] {
          assert keys[1..][i] == keys[i + 1] && keys[1..][j] == keys[j + 1];
        }
      }
      RemoveFirstSpec(keys[1..], key);
      var rest := RemoveFirst(keys[1..], key);
      if keys[0] == key {
        assert key !in keys[1..] by {
          forall j | 0 <= j < |keys[1..]| ensures keys[1..][j] != key {
            assert keys[1..][j] == keys[j + 1];
          }
        }
        SubsequenceReflexive(keys[1..]);
        SubsequencePrepend(keys[1..], keys[1..], keys[0]);
        assert [keys[0]] + keys[1..] == keys;
      } else {
        var r := [keys[0]] + rest;
        assert keys[0] !in keys[1..] by {
          forall j | 0 <= j < |keys[1..]| ensures keys[1..][j] != keys[0] {
            assert keys[1..][j] == keys[j + 1];
          }
        }
        forall i, j | 0 <= i < j < |r| ensures r[i] != r[j] {
          if i == 0 {
            assert r[j] == rest[j - 1] && rest[j - 1] in rest;
          } else {
            assert r[i] == rest[i - 1] && r[j] == rest[j - 1];
          }
        }
        assert keys == [keys[0]] + keys[1..];
        assert IsSubsequence(r, keys) by {
          assert r[0] == keys[0] && r[1..] == rest && keys[1..] == keys[1..];
        }
      }
    }
  }

  /** Appending a key that is not in a duplicate-free list keeps it free of
      duplicates. */
  lemma AppendFresh(r: seq<String>, key: String)
    requires Distinct(r) && key !in r
    ensures Distinct(r + [key])
  {
    var a := r + [key];
    forall i, j | 0 <= i < j < |a| ensures a[i] != a[j] {
      if j == |a| - 1 {
        assert a[i] == r[i] && r[i] in r;
      } else {
        assert a[i] == r[i] && a[j] == r[j];
      }
    }
  }

  /** A suffix of a duplicate-free list is duplicate-free and holds only
      elements of the list. */
  lemma DistinctSuffix(a: seq<String>, d: nat)
    requires Distinct(a) && d <= |a|
    ensures Distinct(a[d..]) && forall k :: k in a[d..] ==> k in a
  {
    var t := a[d..];
    forall i, j | 0 <= i < j < |t| ensures t[i] != t[j] {
      assert t[i] == a[i + d] && t[j] == a[j + d];
    }
  }

  /** The shape of the touched list: the key last, at most 32 long, the
      tail of the list with the key moved to the end. */
  lemma TouchShape(keys: seq<String>, key: String)
    requires |keys| <= MaxRecentKeys
    ensures var t, a := Touch(keys, key), RemoveFirst(keys, key) + [key];
      |t| >= 1 && t[|t| - 1] == key && |t| <= MaxRecentKeys
      && t == a[|a| - |t|..]
      && |t| == if key in keys || |keys| < MaxRecentKeys then |a| else MaxRecentKeys
  {
    var a := RemoveFirst(keys, key) + [key];
    if |a| <= MaxRecentKeys {
      assert a[0..] == a;
    }
  }

  /** What `set` does to the recent list: the key ends up last, exactly once;
      the list stays free of duplicates and at most 32 long; nothing but the
      key is added; and it keeps the most recent of the other keys in their
      order. */
  lemma TouchSpec(keys: seq<String>, key: String)
    requires Distinct(keys) && |keys| <= MaxRecentKeys
    ensures var t := Touch(keys, key);
      |t| >= 1 && t[|t| - 1] == key
      && Distinct(t) && |t| <= MaxRecentKeys
      && (forall k :: k in t ==> k in keys || k == key)
      && t == (RemoveFirst(keys, key) + [key])[|RemoveFirst(keys, key)| + 1 - |t|..]
      && |t| == if key in keys || |keys| < MaxRecentKeys then |RemoveFirst(keys, key)| + 1 else MaxRecentKeys
  {
    TouchShape(keys, key);
    var r := RemoveFirst(keys, key);
    var a := r + [key];
    var t := Touch(keys, key);
    var d := |a| - |t|;
    assert Distinct(t) && (forall k :: k in t ==> k in keys || k == key) by {
      RemoveFirstSpec(keys, key);
      AppendFresh(r, key);
      DistinctSuffix(a, d);
      assert forall k :: k in a ==> k in r || k == key;
    }
  }

  /** Using the key that is already the most recent changes nothing more. */
  lemma TouchIdempotent(keys: seq<String>, key: String)
    requires Distinct(keys) && |keys| <= MaxRecentKeys
    ensures Touch(Touch(keys, key), key) == Touch(keys, key)
  {
    var t := Touch(keys, key);
    TouchShape(keys, key);
    assert key !in t[..|t| - 1] by {
      TouchSpec(keys, key);
      forall i | 0 <= i < |t| - 1 ensures t[i] != key {
        assert t[i] != t[|t| - 1];
      }
    }
    RemoveFirstAt(t, key, |t| - 1);
    assert RemoveFirst(t, key) + [key] == t;
  }

  /** The recent panel lists the later key's rows before the earlier's. */
  lemma {:induction false} NewestAppend(a: seq<String>, b: seq<String>, data: map<String, CacheEntry>, now: int)
    ensures Newest(a + b, data, now) == Newest(b, data, now) + Newest(a, data, now)
    decreases |a|
  {
    if |a| > 0 {
      NewestAppend(a[1..], b, data, now);
      assert (a + b)[1..] == a[1..] + b;
    } else {
      assert a + b == b;
    }
  }

  /** Every row of the panel comes from a visible entry of a listed key. */
  lemma {:induction false} NewestFromVisible(keys: seq<String>, data: map<String, CacheEntry>, now: int)
    ensures forall s :: s in Newest(keys, data, now) ==>
      exists k :: k in keys && Visible(data, k, now) && s in EntrySnapshots(data[k])
    decreases |keys|
  {
    if |keys| > 0 {
      NewestFromVisible(keys[1..], data, now);
      forall s | s in Newest(keys, data, now)
        ensures exists k :: k in keys && Visible(data, k, now) && s in EntrySnapshots(data[k])
      {
        if s in Newest(keys[1..], data, now) {
          var k :| k in keys[1..] && Visible(data, k, now) && s in EntrySnapshots(data[k]);
          assert k in keys;
        } else {
          assert keys[0] in keys;
        }
      }
    }
  }

  /** Within four hours of a store, `get` finds exactly what was stored;
      after that it misses, unless something is stored again. */
  lemma SetThenGet(data: map<String, CacheEntry>, key: String, results: seq<Check.CheckResult>,
                   includeInRecent: bool, now: int, later: int)
    ensures var d := Sweep(data, now)[key := NewEntry(results, includeInRecent, now)];
      key in d && d[key].results == results && d[key].scannedAt == now
      && (Live(d[key], later) <==> later <= now + CacheTtl)
  {
  }

  /** The sweep keeps exactly the entries still live at that moment, and
      storing one key leaves every other live entry untouched. */
  lemma SetKeepsOthers(data: map<String, CacheEntry>, key: String, results: seq<Check.CheckResult>,
                       includeInRecent: bool, now: int, other: String)
    requires other != key
    ensures var d := Sweep(data, now)[key := NewEntry(results, includeInRecent, now)];
      (other in d <==> other in data && Live(data[other], now))
      && (other in d ==> d[other] == data[other])
  {
  }

  /** A scan stored with `includeInRecent` heads the panel: its rows come
      first, whatever the list held before. */
  lemma StoredScanShownFirst(keys: seq<String>, data: map<String, CacheEntry>, key: String,
                             results: seq<Check.CheckResult>, now: int)
    requires Distinct(keys) && |keys| <= MaxRecentKeys
    ensures var d := Sweep(data, now)[key := NewEntry(results, true, now)];
      var t := Touch(keys, key);
      Newest(t, d, now) == EntrySnapshots(d[key]) + Newest(t[..|t| - 1], d, now)
  {
    var d := Sweep(data, now)[key := NewEntry(results, true, now)];
    TouchSpec(keys, key);
    var t := Touch(keys, key);
    NewestAppend(t[..|t| - 1], [key], d, now);
    assert t[..|t| - 1] + [key] == t;
    assert Newest([key], d, now) == Newest([], d, now) + EntrySnapshots(d[key]);
  }

  /** A scan stored without `includeInRecent` never reaches the panel, even if
      its key was listed before. */
  lemma HiddenScanNeverShown(keys: seq<String>, data: map<String, CacheEntry>, key: String,
                             results: seq<Check.CheckResult>, now: int, later: int)
    ensures var d := Sweep(data, now)[key := NewEntry(results, false, now)];
      forall s :: s in Newest(keys, d, later) ==>
        exists k :: k in keys && k != key && Visible(d, k, later) && s in EntrySnapshots(d[k])
  {
    var d := Sweep(data, now)[key := NewEntry(results, false, now)];
    NewestFromVisible(keys, d, later);
  }
}
