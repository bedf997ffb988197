/** The command-line front ends (`http1` and `httpver`): collecting the scan
    targets from a targets file, the `--targets` flag and the positional
    arguments, refusing to run without any, and turning `-port` into the
    override port handed to every check. Both programs share this code
    word for word. */
module Cli {
  import opened Wrappers
  import opened Strings
  import opened Sequences

  /** What `--targets-file` supplied: no file named, a file that could not be
      read (with the reader's message), or the file's contents. */
  datatype TargetsFile = NoFile | Unreadable(err: String) | Contents(data: String)

  /** The targets in the lines of a targets file: each line trimmed, blank
      lines and lines starting with `#` skipped. */
  function TargetLines(lines: seq<String>): (r: seq<String>)
    ensures |r| <= |lines|
  {
    if |lines| == 0 then []
    else
      var line := TrimSpace(lines[0]);
      (if line == "" || HasPrefix(line, "#") then [] else [line]) + TargetLines(lines[1..])
  }

  /** The identity on targets: the command line de-duplicates exact spellings. */
  function Same(t: String): String { t }

  /** Everything the three sources name, in the order they are read: file
      lines, then the flag's comma-separated pieces, then the positional
      arguments as given. */
  function Collected(targetsFlag: String, data: Option<String>, positional: seq<String>): seq<String> {
    var fromFile := if data.Some? then TargetLines(Split(data.value, '\n')) else [];
    var fromFlag := if targetsFlag != "" then NonBlank(Split(targetsFlag, ',')) else [];
    fromFile + fromFlag + positional
  }

  /** The targets `gatherTargets` returns, or its error. */
  function Gathered(targetsFlag: String, file: TargetsFile, positional: seq<String>): Result<seq<String>, String> {
    match file
    case Unreadable(err) => Failure("failed to read targets file: " + err)
    case NoFile => Success(DedupBy(Collected(targetsFlag, None, positional), Same))
    case Contents(data) => Success(DedupBy(Collected(targetsFlag, Some(data), positional), Same))
  }

  /** `gatherTargets`: reads the three sources in order, then drops repeated
      targets keeping the first of each. */
  method GatherTargets(targetsFlag: String, file: TargetsFile, positional: seq<String>)
    returns (r: Result<seq<String>, String>)
    ensures r == Gathered(targetsFlag, file, positional)
  {
    var targets: seq<String> := [];
    if file.Unreadable? {
      return Failure("failed to read targets file: " + file.err);
    }
    if file.Contents? {
      targets := ReadTargetLines(Split(file.data, '\n'));
    }
    if targetsFlag != "" {
      var fromFlag := ReadFlagParts(Split(targetsFlag, ','));
      targets := targets + fromFlag;
    }
    targets := targets + positional;
    ghost var data := if file.Contents? then Some(file.data) else None;
    assert targets == Collected(targetsFlag, data, positional);
    var deduped := Dedupe(targets);
    r := Success(deduped);
  }

  /** The loop of `gatherTargets` over the lines of the targets file. */
  method ReadTargetLines(lines: seq<String>) returns (targets: seq<String>)
    ensures targets == TargetLines(lines)
  {
    targets := [];
    var i := 0;
    while i < |lines|
      invariant 0 <= i <= |lines|
      invariant targets == TargetLines(lines[..i])
    {
      var line := TrimSpace(lines[i]);
      TargetLinesSnoc(lines, i);
      if !(line == "" || HasPrefix(line, "#")) {
        targets := targets + [line];
      }
      i := i + 1;
    }
    assert lines[..i] == lines;
  }

  /** Reading a file piecewise reads each piece. */
  lemma {:induction false} TargetLinesAppend(a: seq<String>, b: seq<String>)
    ensures TargetLines(a + b) == TargetLines(a) + TargetLines(b)
    decreases |a|
  {
    if |a| > 0 {
      TargetLinesAppend(a[1..], b);
      assert (a + b)[1..] == a[1..] + b;
      assert (a + b)[0] == a[0];
    } else {
      assert a + b == b;
    }
  }

  /** One more line of the file. */
  lemma TargetLinesSnoc(lines: seq<String>, i: int)
    requires 0 <= i < |lines|
    ensures var line := TrimSpace(lines[i]);
      TargetLines(lines[..i + 1])
      == TargetLines(lines[..i]) + (if line == "" || HasPrefix(line, "#") then [] else [line])
  {
    assert lines[..i + 1] == lines[..i] + [lines[i]];
    TargetLinesAppend(lines[..i], [lines[i]]);
    assert [lines[i]][1..] == [];
  }

  /** The loop of `gatherTargets` over the comma-separated `--targets` pieces. */
  method ReadFlagParts(parts: seq<String>) returns (targets: seq<String>)
    ensures targets == NonBlank(parts)
  {
    targets := [];
    var i := 0;
    while i < |parts|
      invariant 0 <= i <= |parts|
      invariant targets == NonBlank(parts[..i])
    {
      var part := TrimSpace(parts[i]);
      NonBlankSnoc(parts, i);
      if part != "" {
        targets := targets + [part];
      }
      i := i + 1;
    }
    assert parts[..i] == parts;
  }

  /** The de-duplication loop of `gatherTargets`, with its `seen` set. */
  method Dedupe(targets: seq<String>) returns (deduped: seq<String>)
    ensures deduped == DedupBy(targets, Same)
  {
    deduped := [];
    var seen: set<String> := {};
    var i := 0;
    assert targets[0..] == targets;
    while i < |targets|
      invariant 0 <= i <= |targets|
      invariant deduped + DedupFrom(targets[i..], Same, seen) == DedupBy(targets, Same)
    {
      var t := targets[i];
      assert targets[i..] == [t] + targets[i + 1..];
      DedupCons(t, targets[i + 1..], Same, seen);
      if t !in seen {
        assert deduped + DedupFrom(targets[i..], Same, seen)
          == (deduped + [t]) + DedupFrom(targets[i + 1..], Same, seen + {t});
        seen := seen + {t};
        deduped := deduped + [t];
      }
      i := i + 1;
    }
    assert targets[i..] == [];
  }

  /** Each target read from a file is trimmed, non-blank and not a comment,
      and every such line of the file is read. */
  lemma {:induction false} TargetLinesSpec(lines: seq<String>)
    ensures forall t :: t in TargetLines(lines) ==> t != "" && !HasPrefix(t, "#") && TrimSpace(t) == t
    ensures forall i :: 0 <= i < |lines| && TrimSpace(lines[i]) != "" && !HasPrefix(TrimSpace(lines[i]), "#") ==>
      TrimSpace(lines[i]) in TargetLines(lines)
    decreases |lines|
  {
    if |lines| > 0 {
      TargetLinesSpec(lines[1..]);
      TrimSpaceIdempotent(lines[0]);
      forall i | 0 <= i < |lines| && TrimSpace(lines[i]) != "" && !HasPrefix(TrimSpace(lines[i]), "#")
        ensures TrimSpace(lines[i]) in TargetLines(lines)
      {
        if i > 0 {
          assert lines[i] == lines[1..][i - 1];
        }
      }
    }
  }

  /** Reading fails exactly when the targets file cannot be read. */
  lemma GatheredFailsOnlyOnUnreadableFile(targetsFlag: String, file: TargetsFile, positional: seq<String>)
    ensures Gathered(targetsFlag, file, positional).Failure? <==> file.Unreadable?
  {
  }

  /** The gathered targets are the collected ones without repetitions: no
      target twice, the order of first appearance kept, and every collected
      target (positional ones untrimmed) present. */
  lemma GatheredSpec(targetsFlag: String, data: Option<String>, positional: seq<String>)
    ensures var file := if data.Some? then Contents(data.value) else NoFile;
      var all := Collected(targetsFlag, data, positional);
      var r := Gathered(targetsFlag, file, positional);
      r.Success?
      && (forall i, j :: 0 <= i < j < |r.value| ==> r.value[i] != r.value[j])
      && IsSubsequence(r.value, all)
      && (forall t :: t in r.value <==> t in all)
  {
    var all := Collected(targetsFlag, data, positional);
    var r := DedupBy(all, Same);
    var file := if data.Some? then Contents(data.value) else NoFile;
    assert Gathered(targetsFlag, file, positional) == Success(r);
    DedupBySpec(all, Same);
    assert forall i, j :: 0 <= i < j < |r| ==> r[i] != r[j] by {
      forall i, j | 0 <= i < j < |r| ensures r[i] != r[j] {
        assert Same(r[i]) != Same(r[j]);
      }
    }
    assert forall t :: t in r <==> t in all by {
      forall t ensures t in r <==> t in all {
        if t in all {
          assert Same(t) in Keys(all, Same);
          var x :| x in r && Same(x) == Same(t);
        }
        if t in r {
          SubsequenceElements(r, all);
        }
      }
    }
  }

  /** Duplicates are recognised by exact spelling only: unlike the web form,
      two spellings that differ in letter case are both scanned. */
  lemma DedupeIsCaseSensitive(upper: String, lower: String)
    requires upper == "Example.com" && lower == "example.com"
    ensures Gathered("", NoFile, [upper, lower]) == Success([upper, lower])
  {
    var all := [upper, lower];
    assert Collected("", None, all) == all;
    assert upper != lower by { assert upper[0] != lower[0]; }
    assert all[1..] == [lower] && [lower][1..] == [];
    assert Same(upper) == upper && Same(lower) == lower;
    assert DedupFrom([lower], Same, {upper}) == [lower];
    assert DedupFrom(all, Same, {}) == [upper] + DedupFrom([lower], Same, {upper});
    assert DedupBy(all, Same) == all;
    assert Gathered("", NoFile, all) == Success(DedupBy(Collected("", None, all), Same));
  }

  /** The port `-port` forces on every target: empty (each target keeps its
      own) unless the flag is positive, else its decimal digits. */
  function OverridePort(portFlag: int): (r: String)
    ensures r == "" <==> portFlag <= 0
    ensures forall k :: 0 <= k < |r| ==> '0' <= r[k] <= '9'
  {
    if portFlag > 0 then NatToString(portFlag) else ""
  }

  /** A positive `-port` value survives as the port number it names. */
  lemma OverridePortRoundTrip(portFlag: int)
    requires portFlag > 0
    ensures ParseNat(OverridePort(portFlag)) == portFlag
  {
    NatToStringRoundTrip(portFlag);
  }

  /** What a command-line run goes on to do once its flags are read. */
  datatype Plan =
    | ReportError(msg: String)
    | ShowUsage
    | Scan(targets: seq<String>, overridePort: String)

  /** The start of `main`: a read error is reported, no targets at all shows
      the usage text, anything else is scanned with the override port. */
  function PlanOf(targetsFlag: String, file: TargetsFile, positional: seq<String>, portFlag: int): Plan {
    match Gathered(targetsFlag, file, positional)
    case Failure(msg) => ReportError(msg)
    case Success(targets) =>
      if |targets| == 0 then ShowUsage else Scan(targets, OverridePort(portFlag))
  }

  /** A run scans exactly when the file (if any) was readable and some
      source named a target; with nothing named it shows usage instead. */
  lemma PlanScanIff(targetsFlag: String, data: Option<String>, positional: seq<String>, portFlag: int)
    ensures var file := if data.Some? then Contents(data.value) else NoFile;
      var p := PlanOf(targetsFlag, file, positional, portFlag);
      (p.Scan? <==> |Collected(targetsFlag, data, positional)| > 0)
      && (p.ShowUsage? <==> |Collected(targetsFlag, data, positional)| == 0)
      && (p.Scan? ==> (p.overridePort == "" <==> portFlag <= 0))
  {
    var all := Collected(targetsFlag, data, positional);
    GatheredSpec(targetsFlag, data, positional);
    if |all| > 0 {
      assert all[0] in all;
    }
  }

  /** Any positional argument is scanned, whatever else was given. */
  lemma PositionalArgumentScanned(targetsFlag: String, data: Option<String>, positional: seq<String>, portFlag: int, i: int)
    requires 0 <= i < |positional|
    ensures var file := if data.Some? then Contents(data.value) else NoFile;
      var p := PlanOf(targetsFlag, file, positional, portFlag);
      p.Scan? && positional[i] in p.targets
  {
    var all := Collected(targetsFlag, data, positional);
    GatheredSpec(targetsFlag, data, positional);
    var fromFile := if data.Some? then TargetLines(Split(data.value, '\n')) else [];
    var fromFlag := if targetsFlag != "" then NonBlank(Split(targetsFlag, ',')) else [];
    assert all[|fromFile| + |fromFlag| + i] == positional[i];
    var file := if data.Some? then Contents(data.value) else NoFile;
    var r := Gathered(targetsFlag, file, positional);
    assert positional[i] in all;
    assert positional[i] in r.value;
    assert PlanOf(targetsFlag, file, positional, portFlag) == Scan(r.value, OverridePort(portFlag));
  }
}
