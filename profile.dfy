/**
 * The client profile generateClientConfig renders: twelve elements joined
 * by newlines. The older revision also reads the endpoint and DNS from the
 * three first lines of `serverip.cfg`.
 */
module Profile {
  import opened Wrappers
  import opened Text
  import opened Numbers
  import opened Errors

  /** The first line of every profile. */
  const InterfaceHeader: string := "[Interface]"

  /** The last line of every profile: route all traffic through the tunnel. */
  const FullTunnel: string := "AllowedIPs = 0.0.0.0/0, ::/0"

  /** The twelve array elements generateClientConfig joins. */
  function ProfileFields(privateKey: string, ip: string, dns: string, vpnParams: string,
                         serverPublicKey: string, psk: string, endpoint: string): seq<string>
  {
    [ InterfaceHeader,
      "PrivateKey = " + privateKey,
      "Address = " + ip + "/32",
      "DNS = " + dns,
      "",
      vpnParams,
      "",
      "[Peer]",
      "PublicKey = " + serverPublicKey,
      "PresharedKey = " + psk,
      "Endpoint = " + endpoint,
      FullTunnel ]
  }

  /**
   * The profile text: whatever the values hold, it opens with the interface
   * header on a line of its own and closes with the full-tunnel route, with
   * no newline after it.
   */
  function RenderProfile(privateKey: string, ip: string, dns: string, vpnParams: string,
                         serverPublicKey: string, psk: string, endpoint: string): (r: string)
    ensures |r| > |InterfaceHeader| && r[..|InterfaceHeader| + 1] == InterfaceHeader + "\n"
    ensures |r| >= |FullTunnel| && r[|r| - |FullTunnel|..] == FullTunnel
  {
    var f := ProfileFields(privateKey, ip, dns, vpnParams, serverPublicKey, psk, endpoint);
    assert f == f[..11] + [FullTunnel];
    JoinAppend(f[..11], [FullTunnel]);
    assert Join(f) == f[0] + "\n" + Join(f[1..]);
    Join(f)
  }

  /** `host:port` with the port as the decimal digits of a number, as the current revision renders it. */
  function EndpointOf(host: string, port: nat): (r: string)
    ensures |r| > |host| && r[..|host|] == host && r[|host|] == ':' && AllDigits(r[|host| + 1..])
    ensures ParseDigits(r[|host| + 1..]) == port
  {
    assert (host + ":" + ShowNat(port))[|host| + 1..] == ShowNat(port);
    ParseShow(port);
    host + ":" + ShowNat(port)
  }

  /**
   * Whatever the DNS and VPN parameters hold (the parameters span several
   * lines), the third line is the client address and the last line routes
   * all traffic.
   */
  lemma {:induction false} ProfileShape(privateKey: string, ip: string, dns: string, vpnParams: string,
                                        serverPublicKey: string, psk: string, endpoint: string)
    requires '\n' !in privateKey && '\n' !in ip
    ensures var lines := Split(RenderProfile(privateKey, ip, dns, vpnParams, serverPublicKey, psk, endpoint));
      |lines| >= 4 && lines[0] == "[Interface]" && lines[1] == "PrivateKey = " + privateKey
      && lines[2] == "Address = " + ip + "/32" && lines[|lines| - 1] == FullTunnel
  {
    var f := ProfileFields(privateKey, ip, dns, vpnParams, serverPublicKey, psk, endpoint);
    var head, rest := f[..3], f[3..];
    assert Split(Join(f)) == head + Split(Join(rest)) by {
      assert f == head + rest;
      assert forall k :: 0 <= k < |head| ==> '\n' !in head[k];
      LinesOfPrefix(head, rest);
    }
    assert Split(Join(rest)) == Split(Join(rest[..8])) + [FullTunnel] by {
      assert rest == rest[..8] + [FullTunnel];
      LinesOfSuffix(rest[..8], FullTunnel);
    }
  }

  /** Leading one-line elements come back as the first lines. */
  lemma {:induction false} LinesOfPrefix(head: seq<string>, rest: seq<string>)
    requires |head| >= 1 && |rest| >= 1
    requires forall k :: 0 <= k < |head| ==> '\n' !in head[k]
    ensures Split(Join(head + rest)) == head + Split(Join(rest))
  {
    JoinAppend(head, rest);
    SplitAround(Join(head), Join(rest));
    SplitJoin(head);
  }

  /** A trailing one-line element comes back as the last line. */
  lemma {:induction false} LinesOfSuffix(init: seq<string>, last: string)
    requires |init| >= 1 && '\n' !in last
    ensures Split(Join(init + [last])) == Split(Join(init)) + [last]
  {
    JoinAppend(init, [last]);
    SplitAround(Join(init), last);
    SplitSingle(last);
  }

  /** With every value on one line, the profile splits back into exactly its twelve elements. */
  lemma {:induction false} ProfileLines(privateKey: string, ip: string, dns: string, vpnParams: string,
                     serverPublicKey: string, psk: string, endpoint: string)
    requires '\n' !in privateKey && '\n' !in ip && '\n' !in dns && '\n' !in vpnParams
    requires '\n' !in serverPublicKey && '\n' !in psk && '\n' !in endpoint
    ensures Split(RenderProfile(privateKey, ip, dns, vpnParams, serverPublicKey, psk, endpoint))
      == ProfileFields(privateKey, ip, dns, vpnParams, serverPublicKey, psk, endpoint)
  {
    var f := ProfileFields(privateKey, ip, dns, vpnParams, serverPublicKey, psk, endpoint);
    forall k | 0 <= k < |f| ensures '\n' !in f[k] {
    }
    SplitJoin(f);
  }

  /** The server address, DNS and port the older revision reads from `serverip.cfg`. */
  datatype ServerIp = ServerIp(host: string, dns: string, port: string)

  /**
   * Lines 0, 1 and 2 of the file, each trimmed. With fewer than three
   * lines `serverIpLines[k].trim()` reads a missing element and throws.
   */
  function ReadServerIp(text: string): (r: Result<ServerIp, Failure>)
    ensures r.Ok? <==> |Split(text)| >= 3
    ensures r.Err? ==> r.error == ServerIpIncomplete
    ensures r.Ok? ==> IsTrimmed(r.value.host) && IsTrimmed(r.value.dns) && IsTrimmed(r.value.port)
  {
    var lines := Split(text);
    if |lines| < 3 then Err(ServerIpIncomplete)
    else
      TrimShape(lines[0]);
      TrimShape(lines[1]);
      TrimShape(lines[2]);
      Ok(ServerIp(Trim(lines[0]), Trim(lines[1]), Trim(lines[2])))
  }

  /** A value that is its own trim: no surrounding whitespace. */
  predicate IsTrimmed(s: string)
  {
    s == [] || (!IsJsSpace(s[0]) && !IsJsSpace(s[|s| - 1]))
  }

  /** Writing three trimmed one-line values, then any further lines, reads them back. */
  lemma {:induction false} ReadServerIpRoundTrip(host: string, dns: string, port: string, more: seq<string>)
    requires '\n' !in host && '\n' !in dns && '\n' !in port
    requires forall k :: 0 <= k < |more| ==> '\n' !in more[k]
    requires IsTrimmed(host) && IsTrimmed(dns) && IsTrimmed(port)
    ensures ReadServerIp(Join([host, dns, port] + more)) == Ok(ServerIp(host, dns, port))
  {
    var text := Join([host, dns, port] + more);
    JoinedLines(host, dns, port, more);
    ReadTrimmedLines(text);
  }

  /** The lines of the joined text are the elements joined. */
  lemma {:induction false} JoinedLines(host: string, dns: string, port: string, more: seq<string>)
    requires '\n' !in host && '\n' !in dns && '\n' !in port
    requires forall k :: 0 <= k < |more| ==> '\n' !in more[k]
    ensures var lines := Split(Join([host, dns, port] + more));
      |lines| >= 3 && lines[0] == host && lines[1] == dns && lines[2] == port
  {
    var lines := [host, dns, port] + more;
    forall k | 0 <= k < |lines| ensures '\n' !in lines[k] {
      if k >= 3 {
        assert lines[k] == more[k - 3];
      }
    }
    SplitJoin(lines);
  }

  /** When the first three lines are already trimmed, they are read as they are. */
  lemma {:induction false} ReadTrimmedLines(text: string)
    requires |Split(text)| >= 3
    requires IsTrimmed(Split(text)[0]) && IsTrimmed(Split(text)[1]) && IsTrimmed(Split(text)[2])
    ensures ReadServerIp(text) == Ok(ServerIp(Split(text)[0], Split(text)[1], Split(text)[2]))
  {
    var lines := Split(text);
    TrimKeeps(lines[0]);
    TrimKeeps(lines[1]);
    TrimKeeps(lines[2]);
  }

  /** A file of one or two lines makes the older revision throw before it writes anything. */
  lemma {:induction false} ReadServerIpShort(a: string, b: string)
    requires '\n' !in a && '\n' !in b
    ensures ReadServerIp(a) == Err(ServerIpIncomplete)
    ensures ReadServerIp(a + "\n" + b) == Err(ServerIpIncomplete)
  {
    SplitSingle(a);
    SplitSingle(b);
    SplitAround(a, b);
  }

  lemma {:induction false} TrimShape(s: string)
    ensures IsTrimmed(Trim(s))
  {
    var t := TrimStart(s);
    var r := TrimEnd(t);
    if r != [] {
      assert r[0] == t[0];
    }
  }
}
