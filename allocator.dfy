/**
 * getNextClientIP: the highest last octet among the `AllowedIPs =
 * 192.168.200.<n>` lines, plus one, or 2 when there is none.
 */
module Allocator {
  import opened Text
  import opened Numbers
  import opened Scanner
  import opened Peers

  /** The subnet the allocator's regular expression is written for. */
  const Subnet: string := "192.168.200."

  /** The literal part of `/AllowedIPs = 192\.168\.200\.(\d+)/g`. */
  const AddressPattern: string := AllowedTag + Subnet

  /** `parseInt` of every capture. */
  function ParseAll(gs: seq<string>): (ns: seq<nat>)
    requires forall i :: 0 <= i < |gs| ==> AllDigits(gs[i])
    ensures |ns| == |gs|
    ensures forall i :: 0 <= i < |gs| ==> ns[i] == ParseDigits(gs[i])
  {
    if gs == [] then [] else [ParseDigits(gs[0])] + ParseAll(gs[1..])
  }

  lemma {:induction false} ParseAllConcat(a: seq<string>, b: seq<string>)
    requires forall i :: 0 <= i < |a| ==> AllDigits(a[i])
    requires forall i :: 0 <= i < |b| ==> AllDigits(b[i])
    ensures ParseAll(a + b) == ParseAll(a) + ParseAll(b)
  {
  }

  /** The octets the loop collects from `lastIndex = i` on. */
  function OctetsFrom(conf: string, i: nat): seq<nat>
    requires i <= |conf|
  {
    ScanFromCaptures(conf, AddressPattern, Digits, i);
    ParseAll(ScanFrom(conf, AddressPattern, Digits, i))
  }

  /** One successful `exec`: the octet of its capture comes next, and `lastIndex` moves past the capture. */
  lemma {:induction false} OctetsFromMatch(conf: string, ips: seq<nat>, i: nat)
    requires i < |conf| && MatchAt(conf, AddressPattern, Digits, i)
    ensures var e := RunEnd(conf, Digits, i + |AddressPattern|);
      var g := conf[i + |AddressPattern|..e];
      i < e && AllDigits(g) && ips + OctetsFrom(conf, i) == (ips + [ParseDigits(g)]) + OctetsFrom(conf, e)
  {
    var e := RunEnd(conf, Digits, i + |AddressPattern|);
    var g := conf[i + |AddressPattern|..e];
    ScanMatchStep(conf, AddressPattern, Digits, i);
    ScanFromCaptures(conf, AddressPattern, Digits, i);
    ScanFromCaptures(conf, AddressPattern, Digits, e);
    assert ScanFrom(conf, AddressPattern, Digits, i)[0] == g;
    ParseAllConcat([g], ScanFrom(conf, AddressPattern, Digits, e));
    assert OctetsFrom(conf, i) == [ParseDigits(g)] + OctetsFrom(conf, e);
  }

  /** A position where `exec` finds no match adds no octet. */
  lemma {:induction false} OctetsFromSkip(conf: string, i: nat)
    requires i < |conf| && !MatchAt(conf, AddressPattern, Digits, i)
    ensures OctetsFrom(conf, i) == OctetsFrom(conf, i + 1)
  {
    ScanSkipStep(conf, AddressPattern, Digits, i);
  }

  /** The octets of all `AllowedIPs = 192.168.200.<n>` matches, in text order. */
  function Octets(conf: string): seq<nat>
  {
    OctetsFrom(conf, 0)
  }

  /** `Math.max(...ns)`. */
  function Max(ns: seq<nat>): (m: nat)
    requires ns != []
    ensures m in ns
    ensures forall i :: 0 <= i < |ns| ==> ns[i] <= m
  {
    if |ns| == 1 then ns[0]
    else
      var m := Max(ns[1..]);
      assert forall i :: 1 <= i < |ns| ==> ns[i] == ns[1..][i - 1];
      if ns[0] >= m then ns[0] else m
  }

  /**
   * The last octet handed out next: 2 for no octets; otherwise above every
   * octet present and one more than one of them (so exactly the maximum plus one).
   */
  function NextOctet(ns: seq<nat>): (n: nat)
    ensures ns == [] ==> n == 2
    ensures forall i :: 0 <= i < |ns| ==> ns[i] < n
    ensures ns != [] ==> n - 1 in ns
  {
    if ns == [] then 2 else Max(ns) + 1
  }

  lemma {:induction false} ShowTwo()
    ensures ShowNat(2) == "2"
  {
  }

  /** The address getNextClientIP returns for the configuration `conf`. */
  function NextAddress(base: string, conf: string): string
  {
    base + ShowNat(NextOctet(Octets(conf)))
  }

  /**
   * getNextClientIP: collects the octets with the `exec` loop, then returns
   * the base followed by 2 or by the maximum plus one.
   */
  method NextClientIP(base: string, conf: string) returns (ip: string)
    ensures ip == NextAddress(base, conf)
  {
    var ips := CollectOctets(conf);
    if |ips| == 0 {
      ip := base + "2";
      assert ip == base + ShowNat(NextOctet(ips)) by {
        ShowTwo();
      }
    } else {
      var lastIp := Max(ips);
      ip := base + ShowNat(lastIp + 1);
      assert NextOctet(ips) == lastIp + 1;
    }
  }

  /** The `while ((match = ipRegex.exec(serverConfig)) !== null)` loop pushing `parseInt(match[1])`. */
  method CollectOctets(conf: string) returns (ips: seq<nat>)
    ensures ips == Octets(conf)
  {
    ips := [];
    var i := 0;
    while i < |conf|
      invariant i <= |conf|
      invariant ips + OctetsFrom(conf, i) == Octets(conf)
    {
      if MatchAt(conf, AddressPattern, Digits, i) {
        var e := RunEnd(conf, Digits, i + |AddressPattern|);
        var g := conf[i + |AddressPattern|..e];
        OctetsFromMatch(conf, ips, i);
        ips := ips + [ParseDigits(g)];
        i := e;
      } else {
        OctetsFromSkip(conf, i);
        i := i + 1;
      }
    }
  }

  /**
   * When `b` starts with a character that is neither in the pattern nor a
   * digit, the octets of `a + b` are those of `a`, then those of `b`.
   */
  lemma {:induction false} OctetsConcat(a: string, b: string)
    requires b == [] || (b[0] !in AddressPattern && !IsDigit(b[0]))
    ensures Octets(a + b) == Octets(a) + Octets(b)
  {
    ScanConcat(a, b, AddressPattern, Digits);
    ScanFromCaptures(a, AddressPattern, Digits, 0);
    ScanFromCaptures(b, AddressPattern, Digits, 0);
    ParseAllConcat(Scan(a, AddressPattern, Digits), Scan(b, AddressPattern, Digits));
  }

  /** A text without the pattern has no octets. */
  lemma {:induction false} OctetsAbsent(s: string)
    requires !Contains(s, AddressPattern)
    ensures Octets(s) == []
  {
    ScanAbsent(s, AddressPattern, Digits);
  }

  /** The address line of a peer in the subnet yields its octet. */
  lemma {:induction false} OctetsOfAddressLine(n: nat)
    ensures Octets(AllowedLine(Subnet + ShowNat(n))) == [n]
  {
    var d := ShowNat(n);
    assert AllowedLine(Subnet + d) == (AddressPattern + d) + "/32";
    OctetsConcat(AddressPattern + d, "/32");
    ScanSingle(AddressPattern, d, Digits);
    ParseShow(n);
    ShortNotContained("/32", AddressPattern);
    OctetsAbsent("/32");
  }

  /**
   * Appending the block of a peer whose address is `192.168.200.<n>` adds
   * exactly `n` to the octets, after the ones already there.
   */
  lemma {:induction false} OctetsAfterAppend(conf: string, u: string, publicKey: string, psk: string, n: nat)
    requires IsFieldText(u) && IsFieldText(publicKey) && IsFieldText(psk)
    ensures Octets(conf + PeerBlock(u, publicKey, psk, Subnet + ShowNat(n))) == Octets(conf) + [n]
  {
    AppendOctets(conf, u, publicKey, psk, Subnet + ShowNat(n));
    OctetsOfAddressLine(n);
  }

  /** Only the address line of an appended block can add octets. */
  lemma {:induction false} AppendOctets(conf: string, u: string, publicKey: string, psk: string, ip: string)
    requires IsFieldText(u) && IsFieldText(publicKey) && IsFieldText(psk)
    ensures Octets(conf + PeerBlock(u, publicKey, psk, ip)) == Octets(conf) + Octets(AllowedLine(ip))
  {
    BlockAtMarker(u, publicKey, psk, ip);
    OctetsConcat(conf, PeerBlock(u, publicKey, psk, ip));
    BlockOctets(u, publicKey, psk, ip);
  }

  lemma {:induction false} BlockOctets(u: string, publicKey: string, psk: string, ip: string)
    requires IsFieldText(u) && IsFieldText(publicKey) && IsFieldText(psk)
    ensures Octets(PeerBlock(u, publicKey, psk, ip)) == Octets(AllowedLine(ip))
  {
    var head := Join(PeerHeadFields(u, publicKey, psk));
    var line := AllowedLine(ip);
    BlockAtAddress(u, publicKey, psk, ip);
    assert PeerBlock(u, publicKey, psk, ip) == head + (['\n'] + line);
    OctetsConcat(head, ['\n'] + line);
    NoTagInHead(u, publicKey, psk, AddressPattern);
    OctetsAbsent(head);
    NewlineOctets(line);
  }

  lemma {:induction false} NewlineOctets(line: string)
    ensures Octets(['\n'] + line) == Octets(line)
  {
    ScanSkipFirst('\n', line, AddressPattern, Digits);
  }

  /** The allocated octet is the new maximum, so the next one is one higher. */
  lemma {:induction false} NextAfterAllocation(ns: seq<nat>)
    ensures NextOctet(ns + [NextOctet(ns)]) == NextOctet(ns) + 1
  {
    var n := NextOctet(ns);
    var m := Max(ns + [n]);
    assert (ns + [n])[|ns|] == n;
    assert forall i :: 0 <= i < |ns| ==> (ns + [n])[i] == ns[i];
  }

  /**
   * Adding a peer at the allocated address of the subnet makes the next
   * allocation return the following address.
   */
  lemma {:induction false} SuccessiveAllocations(conf: string, u: string, publicKey: string, psk: string)
    requires IsFieldText(u) && IsFieldText(publicKey) && IsFieldText(psk)
    ensures var n := NextOctet(Octets(conf));
      NextAddress(Subnet, conf + PeerBlock(u, publicKey, psk, NextAddress(Subnet, conf))) == Subnet + ShowNat(n + 1)
  {
    var n := NextOctet(Octets(conf));
    OctetsAfterAppend(conf, u, publicKey, psk, n);
    NextAfterAllocation(Octets(conf));
  }

  /** A configuration without any subnet address gets `.2`. */
  lemma {:induction false} FirstAddressIsTwo(base: string, conf: string)
    requires !Contains(conf, AddressPattern)
    ensures NextAddress(base, conf) == base + "2"
  {
    OctetsAbsent(conf);
    ShowTwo();
  }

  /** There is no upper bound: after `.255` the allocator hands out `.256`, not a valid address. */
  lemma {:induction false} NoUpperBound(conf: string, u: string, publicKey: string, psk: string)
    requires IsFieldText(u) && IsFieldText(publicKey) && IsFieldText(psk)
    requires forall i :: 0 <= i < |Octets(conf)| ==> Octets(conf)[i] <= 255
    ensures NextAddress(Subnet, conf + PeerBlock(u, publicKey, psk, Subnet + ShowNat(255))) == Subnet + ShowNat(256)
  {
    OctetsAfterAppend(conf, u, publicKey, psk, 255);
    NextAfterLargest(Octets(conf), 255);
  }

  /** Appending an octet no smaller than any other makes the next octet its successor. */
  lemma {:induction false} NextAfterLargest(ns: seq<nat>, n: nat)
    requires forall i :: 0 <= i < |ns| ==> ns[i] <= n
    ensures NextOctet(ns + [n]) == n + 1
  {
    var m := NextOctet(ns + [n]);
    assert (ns + [n])[|ns|] == n;
    assert m - 1 in ns + [n];
  }

  /**
   * An address line whose address does not start with the subnet gives no
   * octet: the pattern could only start at the line's first character.
   */
  lemma {:induction false} AddressLineOutsideSubnet(ip: string)
    requires IsAddressText(ip) && !(Subnet <= ip)
    ensures Octets(AllowedLine(ip)) == []
  {
    var s := AllowedLine(ip);
    forall x: nat | x <= |s| ensures !OccursAt(s, AddressPattern, x) {
      if OccursAt(s, AddressPattern, x) {
        OccurrenceChar(s, AddressPattern, x, 0);
        if x == 0 {
          OutsideSubnetMismatch(ip);
        }
        assert false;
      }
    }
    OctetsAbsent(s);
  }

  /** Where the subnet would stand in the address line, some character differs from it. */
  lemma {:induction false} OutsideSubnetMismatch(ip: string)
    requires IsAddressText(ip) && !(Subnet <= ip)
    ensures !OccursAt(AllowedLine(ip), AddressPattern, 0)
  {
    var s := AllowedLine(ip);
    if |ip| >= |Subnet| {
      var j :| 0 <= j < |Subnet| && ip[j] != Subnet[j];
      assert |AllowedTag| + j < |s| && s[|AllowedTag| + j] == ip[j];
      assert s[|AllowedTag| + j] != AddressPattern[|AllowedTag| + j];
    } else {
      var j := |ip|;
      assert |AllowedTag| + j < |s| && s[|AllowedTag| + j] == '/';
      assert AddressPattern[|AllowedTag| + j] != '/';
    }
  }

  /**
   * The address pattern is written for 192.168.200.: with any other base the
   * allocator never sees the peers it added and hands out `.2` again.
   */
  lemma {:induction false} OtherBaseRepeatsTwo(conf: string, base: string, u: string, publicKey: string, psk: string)
    requires IsFieldText(u) && IsFieldText(publicKey) && IsFieldText(psk)
    requires IsAddressText(base) && !(Subnet <= base) && Octets(conf) == []
    ensures NextAddress(base, conf) == base + "2"
    ensures Octets(conf + PeerBlock(u, publicKey, psk, base + "2")) == []
    ensures NextAddress(base, conf + PeerBlock(u, publicKey, psk, base + "2")) == base + "2"
  {
    ShowTwo();
    var ip := base + "2";
    OutsideSubnetAfterDigit(base);
    assert IsAddressText(ip) by {
      assert forall i :: 0 <= i < |ip| ==> ip[i] == (if i < |base| then base[i] else '2');
    }
    AppendOctets(conf, u, publicKey, psk, ip);
    AddressLineOutsideSubnet(ip);
  }

  /** A base that does not start with the subnet still does not once the `2` is added. */
  lemma {:induction false} OutsideSubnetAfterDigit(base: string)
    requires !(Subnet <= base)
    ensures !(Subnet <= base + "2")
  {
    var ip := base + "2";
    if |base| >= |Subnet| {
      assert ip[..|Subnet|] == base[..|Subnet|];
    } else if |ip| == |Subnet| {
      assert ip[|base|] == '2' != Subnet[|base|];
    }
  }
}
