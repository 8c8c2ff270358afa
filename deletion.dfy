/**
 * The line filter deleteUser runs over the server configuration. A line
 * that contains the marker is dropped and sets the counter `skipLines` to
 * 6; while the counter is positive each further line is dropped and the
 * counter falls by one; every other line is kept.
 */
module Deletion {
  import opened Text
  import opened Scanner
  import opened Peers

  /** The value `skipLines` is set to on a marker hit. */
  const SkipWindow: nat := 6

  /** The lines the loop keeps from `lines` on, with the counter at `skip`. */
  function Filter(lines: seq<string>, m: string, skip: nat): seq<string>
  {
    if lines == [] then []
    else if Contains(lines[0], m) then Filter(lines[1..], m, SkipWindow)
    else if skip > 0 then Filter(lines[1..], m, skip - 1)
    else [lines[0]] + Filter(lines[1..], m, 0)
  }

  /** Reference: line `i` goes when it or one of the six lines before it contains the marker. */
  predicate Dropped(lines: seq<string>, m: string, i: nat)
    requires i < |lines|
  {
    exists j :: 0 <= j <= i && i - j <= SkipWindow && Contains(lines[j], m)
  }

  /** Reference: the lines from index `i` on that are not dropped, in their order. */
  function KeptFrom(lines: seq<string>, m: string, i: nat): seq<string>
    requires i <= |lines|
    decreases |lines| - i
  {
    if i == |lines| then []
    else (if Dropped(lines, m, i) then [] else [lines[i]]) + KeptFrom(lines, m, i + 1)
  }

  /** The value of `skipLines` when the loop reaches line `i`. */
  function Counter(lines: seq<string>, m: string, i: nat): nat
    requires i <= |lines|
  {
    if i == 0 then 0
    else if Contains(lines[i - 1], m) then SkipWindow
    else if Counter(lines, m, i - 1) > 0 then Counter(lines, m, i - 1) - 1
    else 0
  }

  /**
   * The counter at line `i` is 7 minus the distance to the last marker line
   * within the window, and 0 when there is none.
   */
  lemma {:induction false} CounterWindow(lines: seq<string>, m: string, i: nat)
    requires i <= |lines|
    ensures forall j :: 0 <= j < i && Contains(lines[j], m) ==> Counter(lines, m, i) + (i - j) >= SkipWindow + 1
    ensures Counter(lines, m, i) > 0 ==>
      exists j :: 0 <= j < i && Contains(lines[j], m) && Counter(lines, m, i) + (i - j) == SkipWindow + 1
  {
    if i > 0 {
      CounterWindow(lines, m, i - 1);
      if Contains(lines[i - 1], m) {
        assert Counter(lines, m, i) + (i - (i - 1)) == SkipWindow + 1;
      }
    }
  }

  /** The counter view and the window view of a dropped line agree. */
  lemma {:induction false} DroppedByCounter(lines: seq<string>, m: string, i: nat)
    requires i < |lines|
    ensures Dropped(lines, m, i) <==> Contains(lines[i], m) || Counter(lines, m, i) > 0
  {
    CounterWindow(lines, m, i);
    if Dropped(lines, m, i) && !Contains(lines[i], m) {
      var j :| 0 <= j <= i && i - j <= SkipWindow && Contains(lines[j], m);
      assert j < i;
    }
    if Contains(lines[i], m) {
      assert i - i <= SkipWindow;
    } else if Counter(lines, m, i) > 0 {
      var j :| 0 <= j < i && Contains(lines[j], m) && Counter(lines, m, i) + (i - j) == SkipWindow + 1;
      assert i - j <= SkipWindow;
    }
  }

  /** From line `i` on, the loop keeps exactly the lines the reference keeps. */
  lemma {:induction false} FilterFromMatchesReference(lines: seq<string>, m: string, i: nat)
    requires i <= |lines|
    ensures Filter(lines[i..], m, Counter(lines, m, i)) == KeptFrom(lines, m, i)
    decreases |lines| - i
  {
    if i < |lines| {
      FilterFromMatchesReference(lines, m, i + 1);
      DroppedByCounter(lines, m, i);
      assert lines[i..][0] == lines[i];
      assert lines[i..][1..] == lines[i + 1..];
    }
  }

  /** The filter keeps exactly the lines that are not dropped, in their order. */
  lemma {:induction false} FilterIsReference(lines: seq<string>, m: string)
    ensures Filter(lines, m, 0) == KeptFrom(lines, m, 0)
  {
    FilterFromMatchesReference(lines, m, 0);
    assert lines[0..] == lines;
  }

  /** deleteUser's `for` loop over the lines of the server configuration. */
  method FilterLines(lines: seq<string>, m: string) returns (filteredLines: seq<string>)
    ensures filteredLines == KeptFrom(lines, m, 0)
  {
    filteredLines := [];
    var skipLines: nat := 0;
    var i := 0;
    while i < |lines|
      invariant i <= |lines|
      invariant filteredLines + Filter(lines[i..], m, skipLines) == Filter(lines, m, 0)
    {
      assert lines[i..][0] == lines[i] && lines[i..][1..] == lines[i + 1..];
      if Contains(lines[i], m) {
        skipLines := SkipWindow;
      } else if skipLines > 0 {
        skipLines := skipLines - 1;
      } else {
        filteredLines := filteredLines + [lines[i]];
      }
      i := i + 1;
    }
    FilterIsReference(lines, m);
  }

  /**
   * The server configuration after deleting `u`: the kept lines joined by
   * newlines. For a name without a newline the marker is gone afterwards.
   */
  function DeletedText(conf: string, u: string): (r: string)
    ensures '\n' !in u ==> !Contains(r, Marker(u))
  {
    NoMarkerAfterDelete(conf, u);
    Join(KeptFrom(Split(conf), Marker(u), 0))
  }

  /** No line the filter keeps holds the marker. */
  lemma {:induction false} KeptWithoutMarker(lines: seq<string>, m: string, i: nat)
    requires i <= |lines|
    decreases |lines| - i
    ensures forall k :: 0 <= k < |KeptFrom(lines, m, i)| ==> !Contains(KeptFrom(lines, m, i)[k], m)
  {
    if i < |lines| {
      KeptWithoutMarker(lines, m, i + 1);
      var head := if Dropped(lines, m, i) then [] else [lines[i]];
      if !Dropped(lines, m, i) {
        assert i - i <= SkipWindow;
      }
      assert KeptFrom(lines, m, i) == head + KeptFrom(lines, m, i + 1);
    }
  }

  /** Joining the kept lines leaves no occurrence of a marker that fits on one line. */
  lemma {:induction false} NoMarkerAfterDelete(conf: string, u: string)
    ensures '\n' !in u ==> !Contains(Join(KeptFrom(Split(conf), Marker(u), 0)), Marker(u))
  {
    if '\n' !in u {
      var kept := KeptFrom(Split(conf), Marker(u), 0);
      KeptWithoutMarker(Split(conf), Marker(u), 0);
      MarkerInOneLine(u);
      if kept == [] {
        assert forall i: nat :: i <= |Join(kept)| ==> !OccursAt(Join(kept), Marker(u), i);
      } else {
        ContainsJoin(kept, Marker(u));
      }
    }
  }

  /** Lines with no marker are dropped only while the counter runs down. */
  lemma {:induction false} FilterWithoutMarker(lines: seq<string>, m: string, skip: nat)
    requires forall i :: 0 <= i < |lines| ==> !Contains(lines[i], m)
    ensures Filter(lines, m, skip) == lines[if skip < |lines| then skip else |lines|..]
  {
    if lines != [] {
      FilterWithoutMarker(lines[1..], m, if skip > 0 then skip - 1 else 0);
      if skip == 0 {
        assert [lines[0]] + lines[1..] == lines;
      }
    }
  }

  /** Lines without the marker in front are kept and leave the counter at 0. */
  lemma {:induction false} FilterKeepsCleanPrefix(a: seq<string>, b: seq<string>, m: string)
    requires forall i :: 0 <= i < |a| ==> !Contains(a[i], m)
    ensures Filter(a + b, m, 0) == a + Filter(b, m, 0)
  {
    if a != [] {
      assert forall i :: 0 <= i < |a[1..]| ==> a[1..][i] == a[i + 1];
      FilterKeepsCleanPrefix(a[1..], b, m);
      assert (a + b)[0] == a[0] && (a + b)[1..] == a[1..] + b;
      assert !Contains(a[0], m);
      assert [a[0]] + (a[1..] + Filter(b, m, 0)) == a + Filter(b, m, 0);
    } else {
      assert a + b == b;
    }
  }

  /** No line of a text holds a pattern without newlines that the text lacks. */
  lemma {:induction false} CleanLines(conf: string, m: string)
    requires '\n' !in m && !Contains(conf, m)
    ensures forall i :: 0 <= i < |Split(conf)| ==> !Contains(Split(conf)[i], m)
  {
    ContainsSomeLine(conf, m);
  }

  /**
   * The whole-text check and the per-line check agree, and when the marker
   * is present at least one line goes.
   */
  lemma {:induction false} DeleteDropsSomeLine(conf: string, u: string)
    requires '\n' !in u
    ensures Contains(conf, Marker(u)) <==> exists i :: 0 <= i < |Split(conf)| && Contains(Split(conf)[i], Marker(u))
    ensures Contains(conf, Marker(u)) ==> |KeptFrom(Split(conf), Marker(u), 0)| < |Split(conf)|
  {
    NoNewlineConcat(MarkerPrefix, u);
    ContainsSomeLine(conf, Marker(u));
    if Contains(conf, Marker(u)) {
      var i :| 0 <= i < |Split(conf)| && Contains(Split(conf)[i], Marker(u));
      KeptShorter(Split(conf), Marker(u), 0, i);
    }
  }

  /** From `k` on, the reference keeps at most the lines there, and fewer when line `i` goes. */
  lemma {:induction false} KeptShorter(lines: seq<string>, m: string, k: nat, i: nat)
    requires k <= i < |lines| && Contains(lines[i], m)
    ensures |KeptFrom(lines, m, k)| < |lines| - k
    decreases |lines| - k
  {
    if k < i {
      KeptShorter(lines, m, k + 1, i);
    } else {
      assert Dropped(lines, m, i);
      KeptAtMost(lines, m, k + 1);
    }
  }

  lemma {:induction false} KeptAtMost(lines: seq<string>, m: string, k: nat)
    requires k <= |lines|
    ensures |KeptFrom(lines, m, k)| <= |lines| - k
    decreases |lines| - k
  {
    if k < |lines| {
      KeptAtMost(lines, m, k + 1);
    }
  }

  /** When no line holds the marker, the text is written back unchanged. */
  lemma {:induction false} DeleteWithoutMarker(conf: string, u: string)
    requires '\n' !in u && !Contains(conf, Marker(u))
    ensures DeletedText(conf, u) == conf
  {
    NoNewlineConcat(MarkerPrefix, u);
    CleanLines(conf, Marker(u));
    FilterWithoutMarker(Split(conf), Marker(u), 0);
    FilterIsReference(Split(conf), Marker(u));
    JoinSplit(conf);
  }

  /** No line of a block after its marker holds another marker. */
  lemma {:induction false} BlockLinesClean(u: string, publicKey: string, psk: string, ip: string, m: string)
    requires IsFieldText(publicKey) && IsFieldText(psk) && IsFieldText(ip)
    requires '#' in m
    ensures forall i :: 2 <= i < 6 ==> !Contains(PeerFields(u, publicKey, psk, ip)[i], m)
  {
    var f := PeerFields(u, publicKey, psk, ip);
    assert f[2..] == ["[Peer]", "PublicKey = " + publicKey, "PresharedKey = " + psk, AllowedTag + ip + "/32"];
    forall i | 2 <= i < 6 ensures !Contains(f[i], m) {
      assert f[i] == f[2..][i - 2];
      MissingCharNotContained(f[i], m, '#');
    }
  }

  /**
   * Deleting the peer added last restores the server configuration that
   * was there before it was added.
   */
  lemma {:induction false} DeleteLastRestores(conf: string, u: string, publicKey: string, psk: string, ip: string)
    requires IsFieldText(u) && IsFieldText(publicKey) && IsFieldText(psk) && IsFieldText(ip)
    requires !Contains(conf, Marker(u))
    ensures DeletedText(conf + PeerBlock(u, publicKey, psk, ip), u) == conf
  {
    var m := Marker(u);
    var f := PeerFields(u, publicKey, psk, ip);
    SplitAfterAppend(conf, u, publicKey, psk, ip);
    NoNewlineConcat(MarkerPrefix, u);
    CleanLines(conf, m);
    FilterKeepsCleanPrefix(Split(conf), f[1..], m);
    assert f[1] == m && OccursAt(m, m, 0);
    assert f[1..][1..] == f[2..];
    BlockLinesClean(u, publicKey, psk, ip, m);
    FilterWithoutMarker(f[2..], m, SkipWindow);
    assert Split(conf) + [] == Split(conf);
    FilterIsReference(Split(conf + PeerBlock(u, publicKey, psk, ip)), m);
    JoinSplit(conf);
  }

  /**
   * Filtering the lines of two blocks for the first block's marker keeps
   * only the second block's key, preshared-key and address lines.
   */
  lemma {:induction false} TwoBlocksFiltered(u: string, pu: string, qu: string, ipu: string,
                          v: string, pv: string, qv: string, ipv: string)
    requires IsFieldText(pu) && IsFieldText(qu) && IsFieldText(ipu)
    requires IsFieldText(pv) && IsFieldText(qv) && IsFieldText(ipv)
    requires !Contains(Marker(v), Marker(u))
    ensures Filter(PeerFields(u, pu, qu, ipu)[1..] + PeerFields(v, pv, qv, ipv)[1..], Marker(u), 0)
      == PeerFields(v, pv, qv, ipv)[3..]
  {
    var m := Marker(u);
    var fu, fv := PeerFields(u, pu, qu, ipu), PeerFields(v, pv, qv, ipv);
    var rest := fu[2..] + fv[1..];
    assert (fu[1..] + fv[1..])[0] == m && (fu[1..] + fv[1..])[1..] == rest;
    assert OccursAt(m, m, 0);
    BlockLinesClean(u, pu, qu, ipu, m);
    BlockLinesClean(v, pv, qv, ipv, m);
    forall i | 0 <= i < |rest| ensures !Contains(rest[i], m) {
      if i < 4 {
        assert rest[i] == fu[i + 2];
      } else {
        assert rest[i] == fv[i - 3];
      }
    }
    FilterWithoutMarker(rest, m, SkipWindow);
    assert rest[6..] == fv[3..];
  }

  /**
   * Deleting a peer that is followed by another peer also drops that
   * peer's marker and `[Peer]` lines: the six-line window covers the four
   * lines after the marker and the first two lines of the next block.
   * Only the next peer's key, preshared-key and address lines remain.
   */
  lemma {:induction false} DeleteSwallowsNextHeader(conf: string, u: string, pu: string, qu: string, ipu: string,
                                 v: string, pv: string, qv: string, ipv: string)
    requires IsFieldText(u) && IsFieldText(pu) && IsFieldText(qu) && IsFieldText(ipu)
    requires IsFieldText(v) && IsFieldText(pv) && IsFieldText(qv) && IsFieldText(ipv)
    requires !Contains(conf, Marker(u)) && !Contains(Marker(v), Marker(u))
    ensures DeletedText(conf + PeerBlock(u, pu, qu, ipu) + PeerBlock(v, pv, qv, ipv), u)
      == conf + "\n" + Join(PeerFields(v, pv, qv, ipv)[3..])
  {
    var m := Marker(u);
    var fu, fv := PeerFields(u, pu, qu, ipu), PeerFields(v, pv, qv, ipv);
    var all := conf + PeerBlock(u, pu, qu, ipu) + PeerBlock(v, pv, qv, ipv);
    SplitAfterAppend(conf, u, pu, qu, ipu);
    SplitAfterAppend(conf + PeerBlock(u, pu, qu, ipu), v, pv, qv, ipv);
    assert Split(all) == Split(conf) + (fu[1..] + fv[1..]);
    NoNewlineConcat(MarkerPrefix, u);
    CleanLines(conf, m);
    FilterKeepsCleanPrefix(Split(conf), fu[1..] + fv[1..], m);
    TwoBlocksFiltered(u, pu, qu, ipu, v, pv, qv, ipv);
    FilterIsReference(Split(all), m);
    JoinAppend(Split(conf), fv[3..]);
    JoinSplit(conf);
  }

  /**
   * After that deletion neither peer is listed any more: the next peer's
   * block has lost its marker line.
   */
  lemma {:induction false} DeleteForgetsNextPeer(conf: string, u: string, pu: string, qu: string, ipu: string,
                              v: string, pv: string, qv: string, ipv: string)
    requires IsFieldText(u) && IsFieldText(pu) && IsFieldText(qu) && IsFieldText(ipu)
    requires IsFieldText(v) && IsFieldText(pv) && IsFieldText(qv) && IsFieldText(ipv)
    requires !Contains(conf, Marker(u)) && !Contains(Marker(v), Marker(u))
    ensures ListedNames(DeletedText(conf + PeerBlock(u, pu, qu, ipu) + PeerBlock(v, pv, qv, ipv), u))
      == ListedNames(conf)
  {
    DeleteSwallowsNextHeader(conf, u, pu, qu, ipu, v, pv, qv, ipv);
    var tail := "\n" + Join(PeerFields(v, pv, qv, ipv)[3..]);
    TailUnlisted(v, pv, qv, ipv);
    ScanConcat(conf, tail, MarkerPrefix, WordChars);
    assert conf + "\n" + Join(PeerFields(v, pv, qv, ipv)[3..]) == conf + tail;
  }

  /** The last three lines of a block, after a newline, list no one. */
  lemma {:induction false} TailUnlisted(v: string, pv: string, qv: string, ipv: string)
    requires IsFieldText(pv) && IsFieldText(qv) && IsFieldText(ipv)
    ensures ListedNames("\n" + Join(PeerFields(v, pv, qv, ipv)[3..])) == []
  {
    var x, y, z := "PublicKey = " + pv, "PresharedKey = " + qv, AllowedTag + ipv + "/32";
    assert PeerFields(v, pv, qv, ipv)[3..] == [x, y, z];
    assert [x, y, z][1..] == [y, z] && [y, z][1..] == [z];
    assert Join([y, z]) == y + "\n" + z;
    assert Join([x, y, z]) == x + "\n" + (y + "\n" + z);
    var tail := "\n" + (x + "\n" + (y + "\n" + z));
    assert '#' !in tail;
    MissingCharNotContained(tail, MarkerPrefix, '#');
    ScanAbsent(tail, MarkerPrefix, WordChars);
  }
}
