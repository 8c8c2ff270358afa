/**
 * A global regular expression of the shape `/<literal>(<class>+)/g`, run
 * with `exec` until it returns `null`, as the registry runs
 * `/AllowedIPs = 192\.168\.200\.(\d+)/g` and `/# Peer configuration for (\w+)/g`.
 * Each `exec` finds the leftmost match at or after `lastIndex`; the capture
 * is the longest run of the class (the quantifier is greedy and nothing
 * follows it), and `lastIndex` moves to the end of the match.
 */
module Scanner {
  import opened Text
  import opened Numbers

  /** `\d`, `\w` and `[^/]`. */
  datatype CharClass = Digits | WordChars | NotSlash

  /** `\w` in a regular expression without the `u` flag: `[A-Za-z0-9_]`. */
  predicate IsWordChar(c: char)
  {
    ('a' <= c <= 'z') || ('A' <= c <= 'Z') || ('0' <= c <= '9') || c == '_'
  }

  predicate InClass(c: char, k: CharClass)
  {
    match k
    case Digits => IsDigit(c)
    case WordChars => IsWordChar(c)
    case NotSlash => c != '/'
  }

  predicate AllInClass(s: string, k: CharClass)
  {
    forall j :: 0 <= j < |s| ==> InClass(s[j], k)
  }

  /** The end of the longest run of class `k` that starts at index `j` of `s`. */
  function RunEnd(s: string, k: CharClass, j: nat): (e: nat)
    requires j <= |s|
    decreases |s| - j
    ensures j <= e <= |s|
  {
    if j < |s| && InClass(s[j], k) then RunEnd(s, k, j + 1) else j
  }

  /** The run is made of the class, and the character after it is not. */
  lemma {:induction false} RunEndClass(s: string, k: CharClass, j: nat)
    requires j <= |s|
    ensures forall x :: j <= x < RunEnd(s, k, j) ==> InClass(s[x], k)
    ensures RunEnd(s, k, j) < |s| ==> !InClass(s[RunEnd(s, k, j)], k)
    decreases |s| - j
  {
    if j < |s| && InClass(s[j], k) {
      RunEndClass(s, k, j + 1);
    }
  }

  /** `exec` matches at index `i`: the literal, then a character of the class. */
  predicate MatchAt(s: string, prefix: string, k: CharClass, i: nat)
  {
    i + |prefix| < |s| && OccursAt(s, prefix, i) && InClass(s[i + |prefix|], k)
  }

  /** The captures of successive `exec` calls over `s`, starting with `lastIndex` at `i`. */
  function ScanFrom(s: string, prefix: string, k: CharClass, i: nat): (gs: seq<string>)
    requires i <= |s|
    decreases |s| - i
  {
    if i == |s| then []
    else if MatchAt(s, prefix, k, i) then
      var e := RunEnd(s, k, i + |prefix|);
      assert e > i by { assert s[i + |prefix|] == s[i + |prefix|]; }
      [s[i + |prefix|..e]] + ScanFrom(s, prefix, k, e)
    else ScanFrom(s, prefix, k, i + 1)
  }

  /** Every capture is a non-empty run of the class. */
  lemma {:induction false} ScanFromCaptures(s: string, prefix: string, k: CharClass, i: nat)
    requires i <= |s|
    ensures forall j :: 0 <= j < |ScanFrom(s, prefix, k, i)| ==>
      |ScanFrom(s, prefix, k, i)[j]| >= 1 && AllInClass(ScanFrom(s, prefix, k, i)[j], k)
    decreases |s| - i
  {
    if i < |s| {
      if MatchAt(s, prefix, k, i) {
        var e := RunEnd(s, k, i + |prefix|);
        RunEndClass(s, k, i + |prefix|);
        ScanFromCaptures(s, prefix, k, e);
        var g := s[i + |prefix|..e];
        assert AllInClass(g, k) by {
          forall x | 0 <= x < |g| ensures InClass(g[x], k) {
            assert g[x] == s[i + |prefix| + x];
          }
        }
      } else {
        ScanFromCaptures(s, prefix, k, i + 1);
      }
    }
  }

  /** The captures of the whole loop, in text order. */
  function Scan(s: string, prefix: string, k: CharClass): seq<string>
  {
    ScanFrom(s, prefix, k, 0)
  }

  /** Characters outside the class end a run: appending text that starts with one changes no run in `a`. */
  lemma {:induction false} RunEndConcat(a: string, b: string, k: CharClass, j: nat)
    requires b == [] || !InClass(b[0], k)
    requires j <= |a|
    ensures RunEnd(a + b, k, j) == RunEnd(a, k, j)
    decreases |a| - j
  {
    if j < |a| {
      assert (a + b)[j] == a[j];
      if InClass(a[j], k) {
        RunEndConcat(a, b, k, j + 1);
      }
    } else if b != [] {
      assert (a + b)[j] == b[0];
    }
  }

  /** Runs in the right operand of a concatenation are runs of that operand, shifted. */
  lemma {:induction false} RunEndShift(a: string, b: string, k: CharClass, j: nat)
    requires j <= |b|
    ensures RunEnd(a + b, k, |a| + j) == |a| + RunEnd(b, k, j)
    decreases |b| - j
  {
    if j < |b| {
      assert (a + b)[|a| + j] == b[j];
      if InClass(b[j], k) {
        RunEndShift(a, b, k, j + 1);
      }
    }
  }

  /** A run of the class reaching the end of the text ends there. */
  lemma {:induction false} RunEndAll(s: string, k: CharClass, j: nat)
    requires j <= |s|
    requires forall x :: j <= x < |s| ==> InClass(s[x], k)
    ensures RunEnd(s, k, j) == |s|
    decreases |s| - j
  {
    if j < |s| {
      RunEndAll(s, k, j + 1);
    }
  }

  /**
   * When `b` starts with a character that is neither in the literal nor in
   * the class, a match inside `a + b` that starts inside `a` is a match in `a`.
   */
  lemma {:induction false} MatchConcat(a: string, b: string, prefix: string, k: CharClass, i: nat)
    requires b == [] || (b[0] !in prefix && !InClass(b[0], k))
    requires i < |a|
    ensures MatchAt(a + b, prefix, k, i) <==> MatchAt(a, prefix, k, i)
  {
    var s := a + b;
    var n := i + |prefix|;
    if n < |a| {
      assert s[i..n] == a[i..n];
      assert s[n] == a[n];
    } else if n == |a| {
      if b != [] {
        assert s[n] == b[0];
      }
    } else if MatchAt(s, prefix, k, i) {
      OccurrenceChar(s, prefix, i, |a| - i);
      assert false;
    }
  }

  /** A match in the right operand of a concatenation, shifted. */
  lemma {:induction false} MatchShift(a: string, b: string, prefix: string, k: CharClass, j: nat)
    requires j < |b|
    ensures MatchAt(a + b, prefix, k, |a| + j) <==> MatchAt(b, prefix, k, j)
  {
    var s := a + b;
    var i := |a| + j;
    if j + |prefix| < |b| {
      assert s[i..i + |prefix|] == b[j..j + |prefix|];
      assert s[i + |prefix|] == b[j + |prefix|];
    }
  }

  /** One `exec` that matches at `lastIndex`. */
  lemma {:induction false} ScanMatchStep(s: string, prefix: string, k: CharClass, i: nat)
    requires i <= |s| && MatchAt(s, prefix, k, i)
    ensures var e := RunEnd(s, k, i + |prefix|);
      i + |prefix| < e && ScanFrom(s, prefix, k, i) == [s[i + |prefix|..e]] + ScanFrom(s, prefix, k, e)
  {
  }

  /** One position where `exec` finds no match. */
  lemma {:induction false} ScanSkipStep(s: string, prefix: string, k: CharClass, i: nat)
    requires i < |s| && !MatchAt(s, prefix, k, i)
    ensures ScanFrom(s, prefix, k, i) == ScanFrom(s, prefix, k, i + 1)
  {
  }

  /**
   * Scanning `a + b` from inside `a` gives the captures of `a` from there,
   * then those of `a + b` from where `b` starts.
   */
  lemma {:induction false} ScanFromConcat(a: string, b: string, prefix: string, k: CharClass, i: nat)
    requires b == [] || (b[0] !in prefix && !InClass(b[0], k))
    requires i <= |a|
    ensures ScanFrom(a + b, prefix, k, i) == ScanFrom(a, prefix, k, i) + ScanFrom(a + b, prefix, k, |a|)
    decreases |a| - i
  {
    if i < |a| {
      MatchConcat(a, b, prefix, k, i);
      if MatchAt(a, prefix, k, i) {
        var e := RunEnd(a, k, i + |prefix|);
        ScanFromConcat(a, b, prefix, k, e);
        ConcatMatchStep(a, b, prefix, k, i);
        Regroup(a[i + |prefix|..e], ScanFrom(a, prefix, k, e), ScanFrom(a + b, prefix, k, |a|));
      } else {
        ScanFromConcat(a, b, prefix, k, i + 1);
        ScanSkipStep(a, prefix, k, i);
        ScanSkipStep(a + b, prefix, k, i);
      }
    }
  }

  lemma {:induction false} Regroup(g: string, x: seq<string>, y: seq<string>)
    ensures [g] + (x + y) == ([g] + x) + y
  {
  }

  /** A match inside `a` is the same match inside `a + b`, with the same capture. */
  lemma {:induction false} ConcatMatchStep(a: string, b: string, prefix: string, k: CharClass, i: nat)
    requires b == [] || (b[0] !in prefix && !InClass(b[0], k))
    requires i < |a| && MatchAt(a, prefix, k, i)
    ensures var e := RunEnd(a, k, i + |prefix|);
      && ScanFrom(a, prefix, k, i) == [a[i + |prefix|..e]] + ScanFrom(a, prefix, k, e)
      && ScanFrom(a + b, prefix, k, i) == [a[i + |prefix|..e]] + ScanFrom(a + b, prefix, k, e)
  {
    var s := a + b;
    var e := RunEnd(a, k, i + |prefix|);
    MatchConcat(a, b, prefix, k, i);
    RunEndConcat(a, b, k, i + |prefix|);
    ScanMatchStep(a, prefix, k, i);
    ScanMatchStep(s, prefix, k, i);
    assert s[i + |prefix|..e] == a[i + |prefix|..e];
  }

  /** Scanning `a + b` from inside `b` gives the captures of `b` from there. */
  lemma {:induction false} ScanFromShift(a: string, b: string, prefix: string, k: CharClass, j: nat)
    requires j <= |b|
    ensures ScanFrom(a + b, prefix, k, |a| + j) == ScanFrom(b, prefix, k, j)
    decreases |b| - j
  {
    if j < |b| {
      MatchShift(a, b, prefix, k, j);
      if MatchAt(b, prefix, k, j) {
        var e := RunEnd(b, k, j + |prefix|);
        ScanFromShift(a, b, prefix, k, e);
        ScanMatchStep(b, prefix, k, j);
        ShiftMatchStep(a, b, prefix, k, j);
      } else {
        ScanFromShift(a, b, prefix, k, j + 1);
        ScanSkipStep(b, prefix, k, j);
        ScanSkipStep(a + b, prefix, k, |a| + j);
      }
    }
  }

  lemma {:induction false} SliceShift(a: string, b: string, x: nat, y: nat)
    requires x <= y <= |b|
    ensures (a + b)[|a| + x..|a| + y] == b[x..y]
  {
  }

  /** A match inside `b` is the same match inside `a + b`, shifted, with the same capture. */
  lemma {:induction false} ShiftMatchStep(a: string, b: string, prefix: string, k: CharClass, j: nat)
    requires j < |b| && MatchAt(b, prefix, k, j)
    ensures var e := RunEnd(b, k, j + |prefix|);
      ScanFrom(a + b, prefix, k, |a| + j) == [b[j + |prefix|..e]] + ScanFrom(a + b, prefix, k, |a| + e)
  {
    var s := a + b;
    var i := |a| + j;
    var e := RunEnd(b, k, j + |prefix|);
    assert MatchAt(s, prefix, k, i) && i <= |s| by {
      MatchShift(a, b, prefix, k, j);
    }
    assert RunEnd(s, k, i + |prefix|) == |a| + e by {
      RunEndShift(a, b, k, j + |prefix|);
      assert i + |prefix| == |a| + (j + |prefix|);
    }
    assert s[i + |prefix|..|a| + e] == b[j + |prefix|..e] by {
      SliceShift(a, b, j + |prefix|, e);
    }
    ScanMatchAt(s, prefix, k, i, |a| + e, b[j + |prefix|..e]);
  }

  /** ScanMatchStep with the end of the run and the capture named. */
  lemma {:induction false} ScanMatchAt(s: string, prefix: string, k: CharClass, i: nat, e: nat, capture: string)
    requires i <= |s| && MatchAt(s, prefix, k, i)
    requires e == RunEnd(s, k, i + |prefix|) && capture == s[i + |prefix|..e]
    ensures e <= |s| && ScanFrom(s, prefix, k, i) == [capture] + ScanFrom(s, prefix, k, e)
  {
    ScanMatchStep(s, prefix, k, i);
  }

  /**
   * The captures of `a + b` are those of `a` followed by those of `b`, when
   * `b` starts with a character that is neither in the literal nor in the class.
   */
  lemma {:induction false} ScanConcat(a: string, b: string, prefix: string, k: CharClass)
    requires b == [] || (b[0] !in prefix && !InClass(b[0], k))
    ensures Scan(a + b, prefix, k) == Scan(a, prefix, k) + Scan(b, prefix, k)
  {
    ScanFromConcat(a, b, prefix, k, 0);
    ScanFromShift(a, b, prefix, k, 0);
  }

  /** A leading character that cannot start the literal is skipped. */
  lemma {:induction false} ScanSkipFirst(c: char, s: string, prefix: string, k: CharClass)
    requires prefix != [] && c != prefix[0]
    ensures Scan([c] + s, prefix, k) == Scan(s, prefix, k)
  {
    var t := [c] + s;
    if MatchAt(t, prefix, k, 0) {
      OccurrenceChar(t, prefix, 0, 0);
      assert false;
    }
    ScanSkipStep(t, prefix, k, 0);
    ScanFromShift([c], s, prefix, k, 0);
  }

  /** With no occurrence of the literal from `i` on, no further capture. */
  lemma {:induction false} ScanFromAbsent(s: string, prefix: string, k: CharClass, i: nat)
    requires i <= |s|
    requires forall x: nat :: i <= x <= |s| ==> !OccursAt(s, prefix, x)
    ensures ScanFrom(s, prefix, k, i) == []
    decreases |s| - i
  {
    if i < |s| {
      ScanSkipStep(s, prefix, k, i);
      ScanFromAbsent(s, prefix, k, i + 1);
    }
  }

  /** A text without the literal yields no capture. */
  lemma {:induction false} ScanAbsent(s: string, prefix: string, k: CharClass)
    requires !Contains(s, prefix)
    ensures Scan(s, prefix, k) == []
  {
    ScanFromAbsent(s, prefix, k, 0);
  }

  /** The literal followed by a run of the class, then the end, yields exactly that run. */
  lemma {:induction false} ScanSingle(prefix: string, g: string, k: CharClass)
    requires |g| >= 1 && AllInClass(g, k)
    ensures Scan(prefix + g, prefix, k) == [g]
  {
    var s := prefix + g;
    assert s[..|prefix|] == prefix;
    assert s[|prefix|] == g[0];
    assert MatchAt(s, prefix, k, 0);
    forall x | |prefix| <= x < |s| ensures InClass(s[x], k) {
      assert s[x] == g[x - |prefix|];
    }
    RunEndAll(s, k, |prefix|);
    ScanMatchStep(s, prefix, k, 0);
    assert s[|prefix|..|s|] == g;
  }

  /** Every capture stands in the text right after the literal. */
  lemma {:induction false} ScanFromOccurs(s: string, prefix: string, k: CharClass, i: nat, j: nat)
    requires i <= |s| && j < |ScanFrom(s, prefix, k, i)|
    ensures Contains(s, prefix + ScanFrom(s, prefix, k, i)[j])
    decreases |s| - i
  {
    if MatchAt(s, prefix, k, i) {
      var e := RunEnd(s, k, i + |prefix|);
      ScanMatchStep(s, prefix, k, i);
      if j == 0 {
        CaptureOccurs(s, prefix, k, i);
      } else {
        ScanFromOccurs(s, prefix, k, e, j - 1);
      }
    } else {
      ScanSkipStep(s, prefix, k, i);
      ScanFromOccurs(s, prefix, k, i + 1, j);
    }
  }

  lemma {:induction false} CaptureOccurs(s: string, prefix: string, k: CharClass, i: nat)
    requires MatchAt(s, prefix, k, i)
    ensures OccursAt(s, prefix + s[i + |prefix|..RunEnd(s, k, i + |prefix|)], i)
  {
    var n := i + |prefix|;
    var e := RunEnd(s, k, n);
    assert s[i..e] == s[i..n] + s[n..e];
  }

  /** Every capture of the whole loop stands in the text right after the literal. */
  lemma {:induction false} ScanOccurs(s: string, prefix: string, k: CharClass, j: nat)
    requires j < |Scan(s, prefix, k)|
    ensures Contains(s, prefix + Scan(s, prefix, k)[j])
  {
    ScanFromOccurs(s, prefix, k, 0, j);
  }
}
