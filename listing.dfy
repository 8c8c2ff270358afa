/**
 * The address listUsers reports for a user: the regular expression
 * `# Peer configuration for <u>[\s\S]*?AllowedIPs = ([^/]+)` run once over
 * the server configuration, or "Unknown" when it does not match.
 */
module Listing {
  import opened Wrappers
  import opened Text
  import opened Scanner
  import opened Peers

  /** The address listUsers reports when the expression does not match. */
  const Unknown: string := "Unknown"

  /**
   * The first index from `from` on where `tag` is followed by a character
   * other than `/`: where a lazy `[\s\S]*?` in front of `tag([^/]+)` stops.
   * Listing searches for `AllowedIPs = `.
   */
  function FindField(s: string, tag: string, from: nat): (r: Option<nat>)
    requires from <= |s|
    decreases |s| - from
    ensures r.Some? ==> from <= r.value && MatchAt(s, tag, NotSlash, r.value)
  {
    if from == |s| then None
    else if MatchAt(s, tag, NotSlash, from) then Some(from)
    else FindField(s, tag, from + 1)
  }

  /** The lazy search stops at the first field: there is none between the start and where it stops. */
  lemma {:induction false} FieldLeftmost(s: string, tag: string, from: nat)
    requires from <= |s|
    decreases |s| - from
    ensures var r := FindField(s, tag, from);
      forall j: nat :: from <= j && (r.None? || j < r.value) ==> !MatchAt(s, tag, NotSlash, j)
  {
    if from < |s| && !MatchAt(s, tag, NotSlash, from) {
      FieldLeftmost(s, tag, from + 1);
    }
  }

  /** A match with none before it, from `from` on, is the one the search finds. */
  lemma {:induction false} FirstField(s: string, tag: string, from: nat, t: nat)
    requires from <= t <= |s| && MatchAt(s, tag, NotSlash, t)
    requires forall j: nat :: from <= j < t ==> !MatchAt(s, tag, NotSlash, j)
    ensures FindField(s, tag, from) == Some(t)
  {
    FieldLeftmost(s, tag, from);
  }

  /**
   * The address of `u` in `conf`. The leftmost match starts at the first
   * occurrence of the marker: any later occurrence only sees a suffix of
   * the text the first one sees, so if the first fails all fail. A user
   * whose marker is absent is reported as unknown; any other reported
   * address is a non-empty run without `/` that follows `AllowedIPs = `.
   */
  function IpOf(conf: string, u: string): (r: string)
    ensures !Contains(conf, Marker(u)) ==> r == Unknown
    ensures r == Unknown || (|r| >= 1 && '/' !in r && Contains(conf, AllowedTag + r))
  {
    match CaptureAfterFirst(conf, Marker(u), AllowedTag)
    case None => Unknown
    case Some(a) => CaptureAfterFirstFound(conf, Marker(u), AllowedTag); a
  }

  /** The capture of `m[\s\S]*?tag([^/]+)` matched at the first `m`, if it matches. */
  function CaptureAfterFirst(conf: string, m: string, tag: string): Option<string>
  {
    match FindFrom(conf, m, 0)
    case None => None
    case Some(i) => CaptureFrom(conf, tag, i + |m|)
  }

  /** The capture of `[\s\S]*?tag([^/]+)` matched from `from`, if it matches. */
  function CaptureFrom(conf: string, tag: string, from: nat): Option<string>
    requires from <= |conf|
  {
    match FindField(conf, tag, from)
    case None => None
    case Some(j) => Some(conf[j + |tag|..RunEnd(conf, NotSlash, j + |tag|)])
  }

  /** The capture at a field: a non-empty run without `/` right after `tag`. */
  lemma {:induction false} CaptureAtField(s: string, tag: string, j: nat)
    requires MatchAt(s, tag, NotSlash, j)
    ensures var t := j + |tag|;
      var ip := s[t..RunEnd(s, NotSlash, t)];
      |ip| >= 1 && '/' !in ip && OccursAt(s, tag + ip, j)
  {
    var t := j + |tag|;
    var e := RunEnd(s, NotSlash, t);
    RunEndClass(s, NotSlash, t);
    var ip := s[t..e];
    forall x | 0 <= x < |ip| ensures ip[x] != '/' {
      assert ip[x] == s[t + x];
    }
    assert s[j..e] == s[j..t] + ip;
  }

  /** What the search after the first `m` captures. */
  lemma {:induction false} CaptureAfterFirstFound(conf: string, m: string, tag: string)
    ensures var r := CaptureAfterFirst(conf, m, tag);
      r.Some? ==> |r.value| >= 1 && '/' !in r.value && Contains(conf, tag + r.value)
  {
    match FindFrom(conf, m, 0)
    case None =>
    case Some(i) =>
      CaptureFromFound(conf, tag, i + |m|);
  }

  /** What the search from any start captures. */
  lemma {:induction false} CaptureFromFound(conf: string, tag: string, from: nat)
    requires from <= |conf|
    ensures var r := CaptureFrom(conf, tag, from);
      r.Some? ==> |r.value| >= 1 && '/' !in r.value && Contains(conf, tag + r.value)
  {
    match FindField(conf, tag, from)
    case None =>
    case Some(j) =>
      CaptureAtField(conf, tag, j);
  }

  /**
   * With `i` the first occurrence of the user's marker and `t` the first
   * field after it, the address reported is the whole `[^/]+` run after
   * the tag at `t`: non-empty, without `/`, and ended by `/` or the text.
   */
  lemma {:induction false} IpOfFirstField(conf: string, u: string, i: nat, t: nat)
    requires OccursAt(conf, Marker(u), i) && forall k: nat :: k < i ==> !OccursAt(conf, Marker(u), k)
    requires i + |Marker(u)| <= t && MatchAt(conf, AllowedTag, NotSlash, t)
    requires forall j: nat :: i + |Marker(u)| <= j < t ==> !MatchAt(conf, AllowedTag, NotSlash, j)
    ensures var a := t + |AllowedTag|;
      var e := RunEnd(conf, NotSlash, a);
      IpOf(conf, u) == conf[a..e] && a < e && '/' !in conf[a..e] && (e == |conf| || conf[e] == '/')
  {
    CaptureAfterFirstField(conf, Marker(u), AllowedTag, i, t);
  }

  /** The capture after the first `m` is the run after the tag of the first field that follows it. */
  lemma {:induction false} CaptureAfterFirstField(s: string, m: string, tag: string, i: nat, t: nat)
    requires OccursAt(s, m, i) && forall k: nat :: k < i ==> !OccursAt(s, m, k)
    requires i + |m| <= t && MatchAt(s, tag, NotSlash, t)
    requires forall j: nat :: i + |m| <= j < t ==> !MatchAt(s, tag, NotSlash, j)
    ensures var a := t + |tag|;
      var e := RunEnd(s, NotSlash, a);
      CaptureAfterFirst(s, m, tag) == Some(s[a..e]) && a < e && '/' !in s[a..e] && (e == |s| || s[e] == '/')
  {
    FindFromFirst(s, m, i);
    FirstField(s, tag, i + |m|, t);
    CaptureFoundAt(s, m, tag, i, t);
  }

  /** The capture once the first `m` and the first field after it are located. */
  lemma {:induction false} CaptureFoundAt(s: string, m: string, tag: string, i: nat, t: nat)
    requires FindFrom(s, m, 0) == Some(i) && i + |m| <= |s| && FindField(s, tag, i + |m|) == Some(t)
    ensures var a := t + |tag|;
      var e := RunEnd(s, NotSlash, a);
      CaptureAfterFirst(s, m, tag) == Some(s[a..e]) && a < e && '/' !in s[a..e] && (e == |s| || s[e] == '/')
  {
    CaptureAfterFirstAt(s, m, tag, i);
    NotSlashRun(s, t + |tag|);
  }

  /** The `[^/]+` run from a character other than `/` is non-empty, has no `/`, and ends at `/` or the end. */
  lemma {:induction false} NotSlashRun(s: string, a: nat)
    requires a < |s| && s[a] != '/'
    ensures var e := RunEnd(s, NotSlash, a);
      a < e && '/' !in s[a..e] && (e == |s| || s[e] == '/')
  {
    var e := RunEnd(s, NotSlash, a);
    RunEndClass(s, NotSlash, a);
    forall x | 0 <= x < e - a ensures s[a..e][x] != '/' {
      assert s[a..e][x] == s[a + x];
    }
  }

  /** With no field after the first occurrence of the user's marker, the address is unknown. */
  lemma {:induction false} IpOfNoField(conf: string, u: string, i: nat)
    requires OccursAt(conf, Marker(u), i) && forall k: nat :: k < i ==> !OccursAt(conf, Marker(u), k)
    requires forall j: nat :: i + |Marker(u)| <= j ==> !MatchAt(conf, AllowedTag, NotSlash, j)
    ensures IpOf(conf, u) == Unknown
  {
    FindFromFirst(conf, Marker(u), i);
    CaptureAfterFirstAt(conf, Marker(u), AllowedTag, i);
  }

  /** Once the first `m` is located, the capture is what the search after it captures. */
  lemma {:induction false} CaptureAfterFirstAt(s: string, m: string, tag: string, i: nat)
    requires FindFrom(s, m, 0) == Some(i)
    ensures i + |m| <= |s| && CaptureAfterFirst(s, m, tag) == CaptureFrom(s, tag, i + |m|)
  {
  }

  /** Once the field is located, the capture is the run after it. */
  lemma {:induction false} CaptureAt(s: string, tag: string, from: nat, t: nat, v: string)
    requires from <= |s| && FindField(s, tag, from) == Some(t)
    requires t + |tag| <= |s| && s[t + |tag|..RunEnd(s, NotSlash, t + |tag|)] == v
    ensures CaptureFrom(s, tag, from) == Some(v)
  {
  }

  /** An occurrence past the end of `a` is an occurrence in `b`. */
  lemma {:induction false} OccursInSuffix(a: string, b: string, p: string, i: nat)
    ensures OccursAt(a + b, p, |a| + i) ==> OccursAt(b, p, i)
  {
    if OccursAt(a + b, p, |a| + i) {
      assert (a + b)[|a| + i..|a| + i + |p|] == b[i..i + |p|];
    }
  }

  /** Text without `m`, then a newline and `m`: the first `m` is right after the newline. */
  lemma {:induction false} MarkerAfterNewline(conf: string, m: string, rest: string)
    requires !Contains(conf, m) && '\n' !in m && m != []
    ensures FindFrom(conf + ("\n" + m + "\n" + rest), m, 0) == Some(|conf| + 1)
  {
    assert (m + "\n" + rest)[..|m|] == m;
    FirstAfterNewline(conf, m + "\n" + rest, m);
    Regroup(conf, "\n", m, "\n", rest);
  }

  lemma {:induction false} Regroup(a: string, b: string, c: string, d: string, e: string)
    ensures a + (b + c + d + e) == a + b + (c + d + e)
  {
  }

  /** After a block is appended to a text without its marker, the marker is first found right after the text. */
  lemma {:induction false} MarkerAfterText(conf: string, u: string, publicKey: string, psk: string, ip: string)
    requires IsFieldText(u) && !Contains(conf, Marker(u))
    ensures FindFrom(conf + PeerBlock(u, publicKey, psk, ip), Marker(u), 0) == Some(|conf| + 1)
  {
    var m, rest := Marker(u), Join(PeerFields(u, publicKey, psk, ip)[2..]);
    assert '\n' !in m && m != [] by {
      MarkerInOneLine(u);
    }
    MarkerAfterNewline(conf, m, rest);
    assert PeerBlock(u, publicKey, psk, ip) == "\n" + m + "\n" + rest by {
      BlockAtMarker(u, publicKey, psk, ip);
    }
  }

  /** Between the marker and the address line of a block there is no `AllowedIPs = `. */
  lemma {:induction false} NoFieldInHead(conf: string, u: string, publicKey: string, psk: string, ip: string, j: nat)
    requires IsFieldText(u) && IsFieldText(publicKey) && IsFieldText(psk)
    requires |conf| <= j <= |conf| + |Join(PeerHeadFields(u, publicKey, psk))|
    ensures !MatchAt(conf + PeerBlock(u, publicKey, psk, ip), AllowedTag, NotSlash, j)
  {
    var h := Join(PeerHeadFields(u, publicKey, psk));
    var tail := h + "\n" + AllowedLine(ip);
    BlockAtAddress(u, publicKey, psk, ip);
    NoTagInHead(u, publicKey, psk, AllowedTag);
    var k: nat := j - |conf|;
    BeforeNewline(h, AllowedLine(ip), AllowedTag, k);
    OccursInSuffix(conf, tail, AllowedTag, k);
  }

  /** `AllowedIPs = ` followed by the address starts the address line of an appended block. */
  lemma {:induction false} AddressLineMatches(conf: string, u: string, publicKey: string, psk: string, ip: string)
    requires IsAddressText(ip)
    ensures var s := conf + PeerBlock(u, publicKey, psk, ip);
      var t := |conf| + |Join(PeerHeadFields(u, publicKey, psk))| + 1;
      t <= |s| && MatchAt(s, AllowedTag, NotSlash, t)
  {
    var s := conf + PeerBlock(u, publicKey, psk, ip);
    var x := conf + Join(PeerHeadFields(u, publicKey, psk)) + "\n";
    var y := ip + "/32";
    assert s == x + (AllowedTag + y) by {
      BlockAtAddress(u, publicKey, psk, ip);
      assert AllowedLine(ip) == AllowedTag + y;
    }
    assert y[0] == ip[0];
    MatchAfterText(x, AllowedTag, y);
  }

  /** `tag` followed by something other than `/`, right after `x`, is a field. */
  lemma {:induction false} MatchAfterText(x: string, tag: string, y: string)
    requires y != [] && y[0] != '/'
    ensures MatchAt(x + (tag + y), tag, NotSlash, |x|)
  {
    var s := x + (tag + y);
    assert s[|x|..|x| + |tag|] == tag;
    assert s[|x| + |tag|] == y[0];
  }

  /** The `[^/]+` run at the address line of an appended block is the address. */
  lemma {:induction false} RunAtAddressLine(conf: string, u: string, publicKey: string, psk: string, ip: string)
    requires IsAddressText(ip)
    ensures var s := conf + PeerBlock(u, publicKey, psk, ip);
      var t := |conf| + |Join(PeerHeadFields(u, publicKey, psk))| + 1 + |AllowedTag|;
      t <= |s| && s[t..RunEnd(s, NotSlash, t)] == ip
  {
    var s := conf + PeerBlock(u, publicKey, psk, ip);
    var x := conf + Join(PeerHeadFields(u, publicKey, psk)) + "\n" + AllowedTag;
    assert s == x + (ip + "/32") by {
      BlockAtAddress(u, publicKey, psk, ip);
    }
    RunBeforeSlash(x, ip, "/32");
  }

  /** A run of non-slashes followed by a slash ends at the slash. */
  lemma {:induction false} RunBeforeSlash(x: string, v: string, rest: string)
    requires forall i :: 0 <= i < |v| ==> v[i] != '/'
    requires rest != [] && rest[0] == '/'
    ensures var s := x + (v + rest);
      RunEnd(s, NotSlash, |x|) == |x| + |v| && s[|x|..|x| + |v|] == v
  {
    RunEndAll(v, NotSlash, 0);
    RunEndConcat(v, rest, NotSlash, 0);
    RunEndShift(x, v + rest, NotSlash, 0);
    assert (x + (v + rest))[|x|..|x| + |v|] == v;
  }

  /** Listing after an append reports the appended address for the appended user. */
  lemma {:induction false} IpAfterAppend(conf: string, u: string, publicKey: string, psk: string, ip: string)
    requires IsFieldText(u) && IsFieldText(publicKey) && IsFieldText(psk) && IsAddressText(ip)
    requires !Contains(conf, Marker(u))
    ensures IpOf(conf + PeerBlock(u, publicKey, psk, ip), u) == ip
  {
    CaptureAfterAppend(conf, u, publicKey, psk, ip);
  }

  /** The expression matched over an appended block captures the block's address. */
  lemma {:induction false} CaptureAfterAppend(conf: string, u: string, publicKey: string, psk: string, ip: string)
    requires IsFieldText(u) && IsFieldText(publicKey) && IsFieldText(psk) && IsAddressText(ip)
    requires !Contains(conf, Marker(u))
    ensures CaptureAfterFirst(conf + PeerBlock(u, publicKey, psk, ip), Marker(u), AllowedTag) == Some(ip)
  {
    var s := conf + PeerBlock(u, publicKey, psk, ip);
    MarkerAfterText(conf, u, publicKey, psk, ip);
    CaptureAfterFirstAt(s, Marker(u), AllowedTag, |conf| + 1);
    CaptureInBlock(conf, u, publicKey, psk, ip);
  }

  /** Searching from the end of the marker line of an appended block captures its address. */
  lemma {:induction false} CaptureInBlock(conf: string, u: string, publicKey: string, psk: string, ip: string)
    requires IsFieldText(u) && IsFieldText(publicKey) && IsFieldText(psk) && IsAddressText(ip)
    requires !Contains(conf, Marker(u))
    ensures var s := conf + PeerBlock(u, publicKey, psk, ip);
      var from := |conf| + 1 + |Marker(u)|;
      from <= |s| && CaptureFrom(s, AllowedTag, from) == Some(ip)
  {
    var s := conf + PeerBlock(u, publicKey, psk, ip);
    var t := |conf| + |Join(PeerHeadFields(u, publicKey, psk))| + 1;
    var from := |conf| + 1 + |Marker(u)|;
    AddressLineMatches(conf, u, publicKey, psk, ip);
    assert from <= t by {
      BlockAtMarker(u, publicKey, psk, ip);
      BlockAtAddress(u, publicKey, psk, ip);
    }
    forall j: nat | from <= j < t ensures !MatchAt(s, AllowedTag, NotSlash, j) {
      NoFieldInHead(conf, u, publicKey, psk, ip, j);
    }
    FirstField(s, AllowedTag, from, t);
    RunAtAddressLine(conf, u, publicKey, psk, ip);
    CaptureAt(s, AllowedTag, from, t, ip);
  }

  /** A text with no marker at all lists no one. */
  lemma {:induction false} NoMarkerNoNames(conf: string)
    requires !Contains(conf, MarkerPrefix)
    ensures ListedNames(conf) == []
  {
    ScanAbsent(conf, MarkerPrefix, WordChars);
  }
}
