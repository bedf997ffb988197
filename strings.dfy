/** The pieces of Go's `strings` and `strconv` packages that the scanner relies
    on, over `seq<char>`: splitting on a separator, joining, trimming white
    space, ASCII lower-casing, prefix and substring tests, and decimal
    rendering of non-negative integers. */
module Strings {

  type String = seq<char>

  /** The characters `unicode.IsSpace` accepts (what `strings.TrimSpace` strips). */
  predicate IsSpace(c: char) {
    c == ' ' || ('\t' <= c <= '\r') || c == '\U{85}' || c == '\U{A0}' || c == '\U{1680}'
    || ('\U{2000}' <= c <= '\U{200A}') || c == '\U{2028}' || c == '\U{2029}'
    || c == '\U{202F}' || c == '\U{205F}' || c == '\U{3000}'
  }

  function TrimLeft(s: String): (r: String)
    ensures |r| <= |s|
  {
    if |s| > 0 && IsSpace(s[0]) then TrimLeft(s[1..]) else s
  }

  function TrimRight(s: String): (r: String)
    ensures |r| <= |s|
  {
    if |s| > 0 && IsSpace(s[|s| - 1]) then TrimRight(s[..|s| - 1]) else s
  }

  /** `strings.TrimSpace`: drops leading and trailing white space. */
  function TrimSpace(s: String): (r: String)
  {
    TrimRight(TrimLeft(s))
  }

  /** TrimLeft keeps a suffix and drops only white space before it. */
  lemma {:induction false} TrimLeftSpec(s: String)
    ensures var r := TrimLeft(s);
      r == s[|s| - |r|..]
      && (r == [] || !IsSpace(r[0]))
      && (forall i :: 0 <= i < |s| - |r| ==> IsSpace(s[i]))
    decreases |s|
  {
    if |s| > 0 && IsSpace(s[0]) {
      TrimLeftSpec(s[1..]);
      var r := TrimLeft(s);
      forall i | 1 <= i < |s| - |r| ensures IsSpace(s[i]) {
        assert s[i] == s[1..][i - 1];
      }
    }
  }

  /** TrimRight keeps a prefix and drops only white space after it. */
  lemma {:induction false} TrimRightSpec(s: String)
    ensures var r := TrimRight(s);
      r == s[..|r|]
      && (r == [] || !IsSpace(r[|r| - 1]))
      && (forall i :: |r| <= i < |s| ==> IsSpace(s[i]))
    decreases |s|
  {
    if |s| > 0 && IsSpace(s[|s| - 1]) {
      TrimRightSpec(s[..|s| - 1]);
      var r := TrimRight(s);
      forall i | |r| <= i < |s| - 1 ensures IsSpace(s[i]) {
        assert s[i] == s[..|s| - 1][i];
      }
    }
  }

  /** TrimSpace keeps the piece of its input that starts where TrimLeft
      stops. */
  lemma TrimSpaceSlice(s: String)
    ensures var r, lo := TrimSpace(s), |s| - |TrimLeft(s)|;
      lo + |r| <= |s| && r == s[lo..lo + |r|]
  {
    var l := TrimLeft(s);
    TrimLeftSpec(s);
    TrimRightSpec(l);
  }

  /** What TrimSpace drops at the back is white space. */
  lemma TrimSpaceDropsBack(s: String)
    ensures var r, lo := TrimSpace(s), |s| - |TrimLeft(s)|;
      forall i :: lo + |r| <= i < |s| ==> IsSpace(s[i])
  {
    var l := TrimLeft(s);
    var r := TrimRight(l);
    var lo := |s| - |l|;
    TrimLeftSpec(s);
    TrimRightSpec(l);
    forall i | lo + |r| <= i < |s|
      ensures IsSpace(s[i])
    {
      assert s[i] == l[i - lo];
    }
  }

  /** What TrimSpace keeps is the piece of its input between the white space
      it drops at the front and at the back, and that piece neither starts
      nor ends with white space. */
  lemma TrimSpaceSpec(s: String)
    ensures var r, lo := TrimSpace(s), |s| - |TrimLeft(s)|;
      lo + |r| <= |s| && r == s[lo..lo + |r|]
      && (forall i :: 0 <= i < lo ==> IsSpace(s[i]))
      && (forall i :: lo + |r| <= i < |s| ==> IsSpace(s[i]))
      && (r == [] || (!IsSpace(r[0]) && !IsSpace(r[|r| - 1])))
  {
    var l := TrimLeft(s);
    var r := TrimRight(l);
    TrimSpaceSlice(s);
    TrimSpaceDropsBack(s);
    TrimLeftSpec(s);
    TrimRightSpec(l);
    if r != [] {
      assert r[0] == l[0];
    }
  }

  /** Trimming twice is trimming once. */
  lemma TrimSpaceIdempotent(s: String)
    ensures TrimSpace(TrimSpace(s)) == TrimSpace(s)
  {
    var r := TrimSpace(s);
    TrimSpaceSpec(s);
    TrimLeftSpec(r);
    TrimRightSpec(r);
    assert TrimLeft(r) == r;
    assert TrimRight(r) == r;
  }

  /** The trimmed, non-empty pieces, in order. */
  function NonBlank(parts: seq<String>): (r: seq<String>)
    ensures |r| <= |parts|
  {
    if |parts| == 0 then []
    else
      var p := TrimSpace(parts[0]);
      (if p != "" then [p] else []) + NonBlank(parts[1..])
  }

  /** Every piece kept is non-empty and already trimmed. */
  lemma {:induction false} NonBlankTrimmed(parts: seq<String>)
    ensures forall i :: 0 <= i < |NonBlank(parts)| ==>
      NonBlank(parts)[i] != "" && TrimSpace(NonBlank(parts)[i]) == NonBlank(parts)[i]
    decreases |parts|
  {
    if |parts| > 0 {
      TrimSpaceIdempotent(parts[0]);
      NonBlankTrimmed(parts[1..]);
    }
  }

  /** Splitting the pieces splits what is kept. */
  lemma {:induction false} NonBlankAppend(a: seq<String>, b: seq<String>)
    ensures NonBlank(a + b) == NonBlank(a) + NonBlank(b)
    decreases |a|
  {
    if |a| > 0 {
      NonBlankAppend(a[1..], b);
      assert (a + b)[1..] == a[1..] + b;
      assert (a + b)[0] == a[0];
    } else {
      assert a + b == b;
    }
  }

  lemma NonBlankStep(parts: seq<String>, i: int)
    requires 0 <= i < |parts|
    ensures NonBlank(parts[i..])
      == (if TrimSpace(parts[i]) != "" then [TrimSpace(parts[i])] else []) + NonBlank(parts[i + 1..])
  {
    assert parts[i..][1..] == parts[i + 1..];
  }

  /** One more piece. */
  lemma NonBlankSnoc(parts: seq<String>, i: int)
    requires 0 <= i < |parts|
    ensures NonBlank(parts[..i + 1])
      == NonBlank(parts[..i]) + (if TrimSpace(parts[i]) != "" then [TrimSpace(parts[i])] else [])
  {
    assert parts[..i + 1] == parts[..i] + [parts[i]];
    NonBlankAppend(parts[..i], [parts[i]]);
    assert [parts[i]][1..] == [];
  }

  function LowerChar(c: char): (r: char)
    ensures 'A' <= c <= 'Z' ==> r as int == c as int + 32
    ensures !('A' <= c <= 'Z') ==> r == c
  {
    if 'A' <= c <= 'Z' then (c as int + 32) as char else c
  }

  /** `strings.ToLower` restricted to ASCII letters. */
  function ToLower(s: String): (r: String)
    ensures |r| == |s|
    ensures forall i :: 0 <= i < |s| ==> r[i] == LowerChar(s[i])
  {
    seq(|s|, i requires 0 <= i < |s| => LowerChar(s[i]))
  }

  lemma ToLowerIdempotent(s: String)
    ensures ToLower(ToLower(s)) == ToLower(s)
  {
  }

  /** `strings.EqualFold` on ASCII: equal after lower-casing. */
  predicate EqualFold(a: String, b: String) {
    ToLower(a) == ToLower(b)
  }

  predicate HasPrefix(s: String, prefix: String) {
    |prefix| <= |s| && s[..|prefix|] == prefix
  }

  predicate HasSuffix(s: String, suffix: String) {
    |suffix| <= |s| && s[|s| - |suffix|..] == suffix
  }

  /** `strings.Contains`: `sub` occurs somewhere in `s`. */
  predicate Contains(s: String, sub: String)
    decreases |s|
  {
    HasPrefix(s, sub) || (|s| > 0 && Contains(s[1..], sub))
  }

  /** `strings.Split(s, string(sep))`: the pieces between separators. An empty
      input gives one empty piece. */
  function Split(s: String, sep: char): (parts: seq<String>)
    ensures |parts| >= 1
    ensures forall k :: 0 <= k < |parts| ==> sep !in parts[k]
    decreases |s|
  {
    if |s| == 0 then [""]
    else
      var rest := Split(s[1..], sep);
      if s[0] == sep then [""] + rest
      else [[s[0]] + rest[0]] + rest[1..]
  }

  /** `strings.Join(parts, string(sep))`. */
  function Join(parts: seq<String>, sep: char): String
    decreases |parts|
  {
    if |parts| == 0 then ""
    else if |parts| == 1 then parts[0]
    else parts[0] + [sep] + Join(parts[1..], sep)
  }

  /** Joining the pieces of a split gives back the input. */
  lemma {:induction false} JoinSplit(s: String, sep: char)
    ensures Join(Split(s, sep), sep) == s
    decreases |s|
  {
    if |s| > 0 {
      JoinSplit(s[1..], sep);
      var rest := Split(s[1..], sep);
      if s[0] != sep {
        if |rest| == 1 {
        } else {
          assert Join(rest, sep) == rest[0] + [sep] + Join(rest[1..], sep);
          assert [s[0]] + rest[0] + [sep] + Join(rest[1..], sep) == [s[0]] + Join(rest, sep);
        }
      }
    }
  }

  /** Splitting a join of pieces that hold no separator gives back the pieces,
      so such a join determines the pieces. */
  lemma {:induction false} SplitJoin(parts: seq<String>, sep: char)
    requires |parts| >= 1
    requires forall k :: 0 <= k < |parts| ==> sep !in parts[k]
    ensures Split(Join(parts, sep), sep) == parts
    decreases |parts|, |parts[0]|
  {
    if |parts| == 1 {
      SplitNoSep(parts[0], sep);
    } else if |parts[0]| == 0 {
      SplitJoin(parts[1..], sep);
      assert Join(parts, sep) == [sep] + Join(parts[1..], sep);
      assert parts == [""] + parts[1..];
    } else {
      var tail := [parts[0][1..]] + parts[1..];
      SplitJoin(tail, sep);
      assert tail[1..] == parts[1..];
      assert Join(parts, sep) == [parts[0][0]] + Join(tail, sep);
      assert [parts[0][0]] + parts[0][1..] == parts[0];
    }
  }

  lemma {:induction false} SplitNoSep(s: String, sep: char)
    requires sep !in s
    ensures Split(s, sep) == [s]
    decreases |s|
  {
    if |s| > 0 {
      SplitNoSep(s[1..], sep);
      assert [s[0]] + s[1..] == s;
    }
  }

  function Digit(d: nat): (c: char)
    requires d < 10
    ensures '0' <= c <= '9'
  {
    ['0', '1', '2', '3', '4', '5', '6', '7', '8', '9'][d]
  }

  /** `strconv.Itoa` for non-negative values. */
  function NatToString(n: nat): (s: String)
    ensures |s| >= 1
    ensures forall k :: 0 <= k < |s| ==> '0' <= s[k] <= '9'
  {
    if n < 10 then [Digit(n)] else NatToString(n / 10) + [Digit(n % 10)]
  }

  /** Reads a string of decimal digits back as a number. */
  function ParseNat(s: String): nat
    requires forall k :: 0 <= k < |s| ==> '0' <= s[k] <= '9'
  {
    if |s| == 0 then 0 else 10 * ParseNat(s[..|s| - 1]) + (s[|s| - 1] as int - '0' as int)
  }

  /** Decimal rendering loses nothing: reading it back gives the number. */
  lemma {:induction false} NatToStringRoundTrip(n: nat)
    ensures ParseNat(NatToString(n)) == n
  {
    var s := NatToString(n);
    if n >= 10 {
      NatToStringRoundTrip(n / 10);
      assert s[..|s| - 1] == NatToString(n / 10);
    }
    assert Digit(n % 10) as int - '0' as int == n % 10;
  }
}
