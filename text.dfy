/**
 * The JavaScript string operations the registry is built from:
 * `includes`, `split("\n")`, `join("\n")` and `trim`, plus the search for
 * the first occurrence of a literal at or after a position, which is where
 * a regular expression that starts with that literal begins its match.
 * Strings are sequences of characters.
 */
module Text {
  import opened Wrappers

  /** The text `p` starts at index `i` of `s`. */
  predicate OccursAt(s: string, p: string, i: nat)
  {
    i + |p| <= |s| && s[i..i + |p|] == p
  }

  /** `s.includes(p)`. */
  predicate Contains(s: string, p: string)
  {
    exists i: nat :: i <= |s| && OccursAt(s, p, i)
  }

  /**
   * The first index at or after `from` where `p` occurs in `s`: where a
   * regular expression that opens with the literal `p` starts its leftmost
   * match when searched from `from`.
   */
  function FindFrom(s: string, p: string, from: nat): (r: Option<nat>)
    decreases |s| - from
    ensures r.Some? ==> from <= r.value && OccursAt(s, p, r.value)
  {
    if from + |p| > |s| then None
    else if s[from..from + |p|] == p then Some(from)
    else FindFrom(s, p, from + 1)
  }

  /** FindFrom reports the leftmost occurrence: there is none between the start and what it reports. */
  lemma {:induction false} FindFromLeftmost(s: string, p: string, from: nat)
    decreases |s| - from
    ensures var r := FindFrom(s, p, from);
      forall i: nat :: from <= i && (r.None? || i < r.value) ==> !OccursAt(s, p, i)
  {
    if from + |p| <= |s| && s[from..from + |p|] != p {
      FindFromLeftmost(s, p, from + 1);
    }
  }

  /** An occurrence with none before it is the one FindFrom reports. */
  lemma {:induction false} FindFromFirst(s: string, p: string, j: nat)
    requires OccursAt(s, p, j)
    requires forall i: nat :: i < j ==> !OccursAt(s, p, i)
    ensures FindFrom(s, p, 0) == Some(j)
  {
    FindFromLeftmost(s, p, 0);
  }

  /** Each character of an occurrence is the pattern's character. */
  lemma {:induction false} OccurrenceChar(s: string, p: string, i: nat, k: nat)
    requires OccursAt(s, p, i) && k < |p|
    ensures s[i + k] == p[k]
  {
    assert s[i..i + |p|][k] == s[i + k];
  }

  lemma {:induction false} OccursInLeft(a: string, b: string, p: string, i: nat)
    requires OccursAt(a, p, i)
    ensures OccursAt(a + b, p, i)
  {
    assert (a + b)[i..i + |p|] == a[i..i + |p|];
  }

  lemma {:induction false} OccursInRight(a: string, b: string, p: string, i: nat)
    requires OccursAt(b, p, i)
    ensures OccursAt(a + b, p, |a| + i)
  {
    assert (a + b)[|a| + i..|a| + i + |p|] == b[i..i + |p|];
  }

  /** An occurrence in `a + b` lies in `a`, lies in `b`, or covers `b[0]`. */
  lemma {:induction false} OccursInConcat(a: string, b: string, p: string, i: nat)
    requires OccursAt(a + b, p, i)
    requires b == [] || b[0] !in p
    ensures Contains(a, p) || Contains(b, p)
  {
    var t := a + b;
    assert i + |p| <= |t|;
    if i + |p| <= |a| {
      assert t[i..i + |p|] == a[i..i + |p|];
      assert OccursAt(a, p, i);
    } else if i >= |a| {
      var j := i - |a|;
      assert t[i..i + |p|] == b[j..j + |p|];
      assert OccursAt(b, p, j);
    } else {
      OccurrenceChar(t, p, i, |a| - i);
      assert false;
    }
  }

  /**
   * When the first character of `b` does not occur in `p`, no occurrence
   * of `p` in `a + b` straddles the seam.
   */
  lemma {:induction false} ContainsConcat(a: string, b: string, p: string)
    requires b == [] || b[0] !in p
    ensures Contains(a + b, p) <==> Contains(a, p) || Contains(b, p)
  {
    if Contains(a + b, p) {
      var i: nat :| i <= |a + b| && OccursAt(a + b, p, i);
      OccursInConcat(a, b, p, i);
    }
    if Contains(a, p) {
      var i: nat :| i <= |a| && OccursAt(a, p, i);
      OccursInLeft(a, b, p, i);
    }
    if Contains(b, p) {
      var i: nat :| i <= |b| && OccursAt(b, p, i);
      OccursInRight(a, b, p, i);
    }
  }

  /** A leading newline adds no occurrence of a pattern without newlines. */
  lemma {:induction false} ContainsAfterNewline(b: string, p: string)
    requires '\n' !in p
    ensures Contains("\n" + b, p) <==> Contains(b, p)
  {
    var t := "\n" + b;
    if Contains(t, p) {
      var i: nat :| i <= |t| && OccursAt(t, p, i);
      if |p| == 0 {
        assert OccursAt(b, p, 0);
      } else if i == 0 {
        OccurrenceChar(t, p, 0, 0);
        assert false;
      } else {
        assert t[i..i + |p|] == b[i - 1..i - 1 + |p|];
        assert OccursAt(b, p, i - 1);
      }
    }
    if Contains(b, p) {
      var i: nat :| i <= |b| && OccursAt(b, p, i);
      OccursInRight("\n", b, p, i);
    }
  }

  /** A text that lacks one of the characters of `p` does not contain `p`. */
  lemma {:induction false} MissingCharNotContained(s: string, p: string, c: char)
    requires c in p && c !in s
    ensures !Contains(s, p)
  {
    var k :| 0 <= k < |p| && p[k] == c;
    forall i: nat | i <= |s| ensures !OccursAt(s, p, i) {
      if OccursAt(s, p, i) {
        OccurrenceChar(s, p, i, k);
        assert false;
      }
    }
  }

  /** A text shorter than `p` does not contain it. */
  lemma {:induction false} ShortNotContained(s: string, p: string)
    requires |s| < |p|
    ensures !Contains(s, p)
  {
  }

  /** If `s` does not contain `p` it does not contain any extension of `p`. */
  lemma {:induction false} ExtensionNotContained(s: string, p: string, q: string)
    requires !Contains(s, p)
    ensures !Contains(s, p + q)
  {
    if Contains(s, p + q) {
      var i: nat :| i <= |s| && OccursAt(s, p + q, i);
      assert s[i..i + |p|] == s[i..i + |p + q|][..|p|];
      assert OccursAt(s, p, i);
      assert false;
    }
  }

  /** `s.split("\n")`: the pieces between newlines; there is always at least one. */
  function Split(s: string): (lines: seq<string>)
    decreases |s|
    ensures |lines| >= 1
    ensures forall k :: 0 <= k < |lines| ==> '\n' !in lines[k]
  {
    if s == [] then [""]
    else
      var rest := Split(s[1..]);
      if s[0] == '\n' then [""] + rest
      else [[s[0]] + rest[0]] + rest[1..]
  }

  /** `lines.join("\n")`. */
  function Join(lines: seq<string>): string
  {
    if |lines| == 0 then ""
    else if |lines| == 1 then lines[0]
    else lines[0] + "\n" + Join(lines[1..])
  }

  /** Joining the pieces of a split gives back the text. */
  lemma {:induction false} JoinSplit(s: string)
    ensures Join(Split(s)) == s
    decreases |s|
  {
    if s != [] {
      JoinSplit(s[1..]);
      var rest := Split(s[1..]);
      if s[0] != '\n' && |rest| > 1 {
        assert Join(rest) == rest[0] + "\n" + Join(rest[1..]);
      }
    }
  }

  /** A text without a newline splits into itself. */
  lemma {:induction false} SplitSingle(s: string)
    requires '\n' !in s
    ensures Split(s) == [s]
    decreases |s|
  {
    if s != [] {
      SplitSingle(s[1..]);
      assert [s[0]] + s[1..] == s;
    }
  }

  /** One step of Split, for a text that starts with `c`. */
  lemma {:induction false} SplitCons(c: char, s: string)
    ensures Split([c] + s) == if c == '\n' then [""] + Split(s) else [[c] + Split(s)[0]] + Split(s)[1..]
  {
    assert ([c] + s)[1..] == s;
  }

  /** Splitting around a newline splits each side independently. */
  lemma {:induction false} SplitAround(a: string, b: string)
    ensures Split(a + "\n" + b) == Split(a) + Split(b)
    decreases |a|
  {
    if a == [] {
      assert a + "\n" + b == ['\n'] + b;
      SplitCons('\n', b);
    } else {
      var c, a' := a[0], a[1..];
      var x := a' + "\n" + b;
      SplitAround(a', b);
      assert a + "\n" + b == [c] + x;
      SplitConsAppend(c, x, Split(a'), Split(b));
      assert Split(a) == Split([c] + a') by {
        assert a == [c] + a';
      }
      SplitCons(c, a');
    }
  }

  /** One step of Split in front of a text whose lines are `sa + sb`. */
  lemma {:induction false} SplitConsAppend(c: char, x: string, sa: seq<string>, sb: seq<string>)
    requires Split(x) == sa + sb && |sa| >= 1
    ensures Split([c] + x) == (if c == '\n' then [""] + sa else [[c] + sa[0]] + sa[1..]) + sb
  {
    SplitCons(c, x);
    if c == '\n' {
      assert [""] + (sa + sb) == ([""] + sa) + sb;
    } else {
      assert (sa + sb)[1..] == sa[1..] + sb;
      assert [[c] + sa[0]] + (sa[1..] + sb) == ([[c] + sa[0]] + sa[1..]) + sb;
    }
  }

  /** Lines without newlines survive a join followed by a split. */
  lemma {:induction false} SplitJoin(lines: seq<string>)
    requires |lines| >= 1
    requires forall k :: 0 <= k < |lines| ==> '\n' !in lines[k]
    ensures Split(Join(lines)) == lines
  {
    if |lines| == 1 {
      SplitSingle(lines[0]);
    } else {
      SplitJoin(lines[1..]);
      SplitSingle(lines[0]);
      SplitAround(lines[0], Join(lines[1..]));
      assert [lines[0]] + lines[1..] == lines;
    }
  }


  /** Joining two non-empty line lists puts one newline between them. */
  lemma {:induction false} JoinAppend(a: seq<string>, b: seq<string>)
    requires |a| >= 1 && |b| >= 1
    ensures Join(a + b) == Join(a) + "\n" + Join(b)
  {
    if |a| > 1 {
      JoinAppend(a[1..], b);
      assert (a + b)[1..] == a[1..] + b;
    } else {
      assert (a + b)[1..] == b;
    }
  }

  /**
   * For a pattern without a newline, the text contains it exactly when one
   * of its lines does.
   */
  lemma {:induction false} ContainsJoin(lines: seq<string>, p: string)
    requires |lines| >= 1
    requires '\n' !in p
    ensures Contains(Join(lines), p) <==> exists k :: 0 <= k < |lines| && Contains(lines[k], p)
  {
    if |lines| > 1 {
      var tail := Join(lines[1..]);
      ContainsJoin(lines[1..], p);
      assert Join(lines) == lines[0] + ("\n" + tail);
      ContainsConcat(lines[0], "\n" + tail, p);
      ContainsAfterNewline(tail, p);
      if exists k :: 0 <= k < |lines| && Contains(lines[k], p) {
        var k :| 0 <= k < |lines| && Contains(lines[k], p);
        if k > 0 { assert lines[1..][k - 1] == lines[k]; }
      }
      if Contains(tail, p) {
        var k :| 0 <= k < |lines[1..]| && Contains(lines[1..][k], p);
        assert lines[k + 1] == lines[1..][k];
      }
    }
  }

  /** `includes` on the whole text agrees with `includes` on some line of its split. */
  lemma {:induction false} ContainsSomeLine(s: string, p: string)
    requires '\n' !in p
    ensures Contains(s, p) <==> exists k :: 0 <= k < |Split(s)| && Contains(Split(s)[k], p)
  {
    JoinSplit(s);
    ContainsJoin(Split(s), p);
  }

  /** The white space that JavaScript's `trim` removes. */
  predicate IsJsSpace(c: char)
  {
    c == ' ' || c == '\t' || c == '\n' || c == '\r' || c == '\U{B}' || c == '\U{C}'
    || c == '\U{A0}' || c == '\U{1680}' || ('\U{2000}' <= c <= '\U{200A}')
    || c == '\U{2028}' || c == '\U{2029}' || c == '\U{202F}' || c == '\U{205F}'
    || c == '\U{3000}' || c == '\U{FEFF}'
  }

  /** `s` with its leading white space removed. */
  function TrimStart(s: string): (r: string)
    decreases |s|
    ensures |r| <= |s| && r == s[|s| - |r|..]
    ensures forall k :: 0 <= k < |s| - |r| ==> IsJsSpace(s[k])
    ensures r == [] || !IsJsSpace(r[0])
  {
    if s != [] && IsJsSpace(s[0]) then TrimStart(s[1..]) else s
  }

  /** `s` with its trailing white space removed. */
  function TrimEnd(s: string): (r: string)
    decreases |s|
    ensures |r| <= |s| && r == s[..|r|]
    ensures forall k :: |r| <= k < |s| ==> IsJsSpace(s[k])
    ensures r == [] || !IsJsSpace(r[|r| - 1])
  {
    if s != [] && IsJsSpace(s[|s| - 1]) then TrimEnd(s[..|s| - 1]) else s
  }

  /** `s.trim()`. */
  function Trim(s: string): string
  {
    TrimEnd(TrimStart(s))
  }

  /** A text with no surrounding white space is its own trim. */
  lemma {:induction false} TrimKeeps(s: string)
    requires s == [] || (!IsJsSpace(s[0]) && !IsJsSpace(s[|s| - 1]))
    ensures Trim(s) == s
  {
  }

  /** Trimming is idempotent, and its result is a slice of the input. */
  lemma {:induction false} TrimIdempotent(s: string)
    ensures Trim(Trim(s)) == Trim(s)
    ensures exists i :: 0 <= i <= |s| - |Trim(s)| && OccursAt(s, Trim(s), i)
  {
    var t := TrimStart(s);
    var r := TrimEnd(t);
    assert r == [] || (!IsJsSpace(r[0]) && !IsJsSpace(r[|r| - 1])) by {
      if r != [] {
        assert r[0] == t[0];
      }
    }
    TrimKeeps(r);
    TrimSlice(s, t, r);
  }

  lemma {:induction false} TrimSlice(s: string, t: string, r: string)
    requires |t| <= |s| && t == s[|s| - |t|..]
    requires |r| <= |t| && r == t[..|r|]
    ensures OccursAt(s, r, |s| - |t|)
  {
    var i := |s| - |t|;
    assert s[i..i + |r|] == t[..|r|];
  }

  /** The part of an occurrence that lies in the left operand. */
  lemma {:induction false} OccursInPrefix(a: string, b: string, p: string, i: nat)
    requires OccursAt(a + b, p, i) && i + |p| <= |a|
    ensures OccursAt(a, p, i)
  {
    assert (a + b)[i..i + |p|] == a[i..i + |p|];
  }

  /**
   * A pattern without newlines that `a` does not contain has no occurrence
   * in `a + "\n" + b` starting inside `a` or at the newline.
   */
  lemma {:induction false} BeforeNewline(a: string, b: string, p: string, i: nat)
    requires !Contains(a, p) && '\n' !in p && p != []
    requires i <= |a|
    ensures !OccursAt(a + "\n" + b, p, i)
  {
    var s := a + "\n" + b;
    assert s == a + ("\n" + b);
    if OccursAt(s, p, i) {
      if i + |p| <= |a| {
        OccursInPrefix(a, "\n" + b, p, i);
        assert false;
      } else {
        OccurrenceChar(s, p, i, |a| - i);
        assert false;
      }
    }
  }

  /** The first occurrence of `p` in `a + "\n" + b` is where `b` starts with it. */
  lemma {:induction false} FirstAfterNewline(a: string, b: string, p: string)
    requires !Contains(a, p) && '\n' !in p && p != []
    requires OccursAt(b, p, 0)
    ensures FindFrom(a + "\n" + b, p, 0) == Some(|a| + 1)
  {
    var s := a + "\n" + b;
    OccursInRight(a + "\n", b, p, 0);
    forall i: nat | i < |a| + 1 ensures !OccursAt(s, p, i) {
      BeforeNewline(a, b, p, i);
    }
    FindFromFirst(s, p, |a| + 1);
  }

  /**
   * A line `h + t` where `h` has no `A` and `t` has no space does not contain
   * a pattern that starts with `A` and has a space at index 12, such as
   * `AllowedIPs = `: the space would fall in `t` or the `A` in `h`.
   */
  lemma {:induction false} NoTagInLine(h: string, t: string, p: string)
    requires |p| > 12 && p[0] == 'A' && p[12] == ' '
    requires 'A' !in h && ' ' !in t
    ensures !Contains(h + t, p)
  {
    var s := h + t;
    forall i: nat | i <= |s| ensures !OccursAt(s, p, i) {
      if OccursAt(s, p, i) {
        OccurrenceChar(s, p, i, 0);
        OccurrenceChar(s, p, i, 12);
        assert false;
      }
    }
  }
}
