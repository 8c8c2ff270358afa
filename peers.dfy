/**
 * The peer section that adding a user appends to the server configuration
 * (addPeerToServerConfig) and the comment line that names its user.
 */
module Peers {
  import opened Text
  import opened Numbers
  import opened Scanner

  /** The literal in front of the user name in a peer's comment line. */
  const MarkerPrefix: string := "# Peer configuration for "

  /** The literal in front of the address in an `AllowedIPs` line. */
  const AllowedTag: string := "AllowedIPs = "

  /** `# Peer configuration for <u>`: what the duplicate, delete and list checks look for. */
  function Marker(u: string): string
  {
    MarkerPrefix + u
  }

  /** `AllowedIPs = <ip>/32`. */
  function AllowedLine(ip: string): string
  {
    AllowedTag + ip + "/32"
  }

  /** The six array elements that addPeerToServerConfig joins; the first is empty. */
  function PeerFields(u: string, publicKey: string, psk: string, ip: string): seq<string>
  {
    PeerHeadFields(u, publicKey, psk) + [AllowedLine(ip)]
  }

  function PeerHeadFields(u: string, publicKey: string, psk: string): seq<string>
  {
    ["", Marker(u), "[Peer]", "PublicKey = " + publicKey, "PresharedKey = " + psk]
  }

  /**
   * The text appended to the server configuration: the fields joined by
   * newlines. It opens a new line with the user's marker and closes with the
   * address line, with no newline after it.
   */
  function PeerBlock(u: string, publicKey: string, psk: string, ip: string): string
  {
    Join(PeerFields(u, publicKey, psk, ip))
  }

  /** The characters of standard base64, the alphabet `awg genkey` and `awg genpsk` print. */
  predicate IsBase64Char(c: char)
  {
    ('A' <= c <= 'Z') || ('a' <= c <= 'z') || ('0' <= c <= '9') || c == '+' || c == '/' || c == '='
  }

  predicate IsKeyText(k: string)
  {
    forall i :: 0 <= i < |k| ==> IsBase64Char(k[i])
  }

  /** A dotted address such as `192.168.200.7`: digits and dots. */
  predicate IsAddressText(ip: string)
  {
    |ip| >= 1 && forall i :: 0 <= i < |ip| ==> IsDigit(ip[i]) || ip[i] == '.'
  }

  /** A name the username check accepts: `^[a-zA-Z0-9_]+$`. */
  predicate IsUserName(u: string)
  {
    |u| >= 1 && AllInClass(u, WordChars)
  }

  /** Text that can sit inside one line of the configuration without adding a comment. */
  predicate IsFieldText(t: string)
  {
    '\n' !in t && ' ' !in t && '#' !in t
  }

  lemma {:induction false} KeyIsFieldText(k: string)
    requires IsKeyText(k)
    ensures IsFieldText(k)
  {
  }

  lemma {:induction false} AddressIsFieldText(ip: string)
    requires IsAddressText(ip)
    ensures IsFieldText(ip) && '/' !in ip
  {
  }

  lemma {:induction false} UserNameIsFieldText(u: string)
    requires IsUserName(u)
    ensures IsFieldText(u)
  {
  }

  /** No element of the block holds a newline when no field does. */
  lemma {:induction false} FieldsHaveNoNewline(u: string, publicKey: string, psk: string, ip: string)
    requires IsFieldText(u) && IsFieldText(publicKey) && IsFieldText(psk) && IsFieldText(ip)
    ensures forall i :: 0 <= i < 6 ==> '\n' !in PeerFields(u, publicKey, psk, ip)[i]
  {
    var f := PeerFields(u, publicKey, psk, ip);
    NoNewlineConcat(MarkerPrefix, u);
    NoNewlineConcat("PublicKey = ", publicKey);
    NoNewlineConcat("PresharedKey = ", psk);
    NoNewlineConcat(AllowedTag, ip);
    NoNewlineConcat(AllowedTag + ip, "/32");
    assert f[1] == MarkerPrefix + u;
    assert f[5] == AllowedTag + ip + "/32";
  }

  lemma {:induction false} NoNewlineConcat(a: string, b: string)
    requires '\n' !in a && '\n' !in b
    ensures '\n' !in a + b
  {
  }

  /** The marker of a name without newlines lies within one line. */
  lemma {:induction false} MarkerInOneLine(u: string)
    requires '\n' !in u
    ensures '\n' !in Marker(u) && |Marker(u)| >= |MarkerPrefix| && Marker(u)[..|MarkerPrefix|] == MarkerPrefix
  {
    NoNewlineConcat(MarkerPrefix, u);
  }

  /**
   * Appending the block adds exactly its five non-empty elements as new
   * lines after the old ones: the old text is kept as it was.
   */
  lemma {:induction false} SplitAfterAppend(conf: string, u: string, publicKey: string, psk: string, ip: string)
    requires IsFieldText(u) && IsFieldText(publicKey) && IsFieldText(psk) && IsFieldText(ip)
    ensures Split(conf + PeerBlock(u, publicKey, psk, ip)) == Split(conf) + PeerFields(u, publicKey, psk, ip)[1..]
  {
    var f := PeerFields(u, publicKey, psk, ip);
    var rest := f[1..];
    FieldsHaveNoNewline(u, publicKey, psk, ip);
    assert PeerBlock(u, publicKey, psk, ip) == "" + "\n" + Join(rest);
    assert conf + PeerBlock(u, publicKey, psk, ip) == conf + "\n" + Join(rest);
    SplitAround(conf, Join(rest));
    SplitJoin(rest);
  }

  /** The block is its first five elements, a newline, and the address line. */
  lemma {:induction false} BlockAtAddress(u: string, publicKey: string, psk: string, ip: string)
    ensures PeerBlock(u, publicKey, psk, ip) == Join(PeerHeadFields(u, publicKey, psk)) + "\n" + AllowedLine(ip)
  {
    JoinAppend(PeerHeadFields(u, publicKey, psk), [AllowedLine(ip)]);
  }

  /** The block is a newline, the marker, and a rest that starts with a newline. */
  lemma {:induction false} BlockAtMarker(u: string, publicKey: string, psk: string, ip: string)
    ensures PeerBlock(u, publicKey, psk, ip) == "\n" + Marker(u) + "\n" + Join(PeerFields(u, publicKey, psk, ip)[2..])
  {
    var f := PeerFields(u, publicKey, psk, ip);
    assert Join(f) == "" + "\n" + Join(f[1..]);
    assert f[1..][1..] == f[2..];
    assert Join(f[1..]) == f[1] + "\n" + Join(f[2..]);
  }

  /**
   * A pattern that starts with `A` and has a space at index 12, such as
   * `AllowedIPs = `, is not in the part of the block before the address line.
   */
  lemma {:induction false} NoTagInHead(u: string, publicKey: string, psk: string, p: string)
    requires IsFieldText(u) && IsFieldText(publicKey) && IsFieldText(psk)
    requires |p| > 12 && p[0] == 'A' && p[12] == ' ' && '\n' !in p
    ensures !Contains(Join(PeerHeadFields(u, publicKey, psk)), p)
  {
    var h := PeerHeadFields(u, publicKey, psk);
    NoTagInLine("", "", p);
    NoTagInLine(MarkerPrefix, u, p);
    NoTagInLine("[Peer]", "", p);
    NoTagInLine("PublicKey = ", publicKey, p);
    NoTagInLine("PresharedKey = ", psk, p);
    assert h[0] == "" + "" && h[2] == "[Peer]" + "";
    ContainsJoin(h, p);
  }

  /** No line of the block after the marker holds a `#`, so no further marker starts there. */
  lemma {:induction false} NoMarkerAfterMarker(u: string, publicKey: string, psk: string, ip: string)
    requires IsFieldText(publicKey) && IsFieldText(psk) && IsFieldText(ip)
    ensures !Contains("\n" + Join(PeerFields(u, publicKey, psk, ip)[2..]), MarkerPrefix)
  {
    var r := PeerFields(u, publicKey, psk, ip)[2..];
    assert r == ["[Peer]", "PublicKey = " + publicKey, "PresharedKey = " + psk, AllowedTag + ip + "/32"];
    forall i | 0 <= i < |r| ensures !Contains(r[i], MarkerPrefix) {
      MissingCharNotContained(r[i], MarkerPrefix, '#');
    }
    ContainsJoin(r, MarkerPrefix);
    ContainsAfterNewline(Join(r), MarkerPrefix);
  }

  /** The names `/# Peer configuration for (\w+)/g` captures, in text order. */
  function ListedNames(conf: string): seq<string>
  {
    Scan(conf, MarkerPrefix, WordChars)
  }

  /** Appending a block lists its user after the users listed before. */
  lemma {:induction false} ListedNamesAfterAppend(conf: string, u: string, publicKey: string, psk: string, ip: string)
    requires IsUserName(u) && IsFieldText(publicKey) && IsFieldText(psk) && IsFieldText(ip)
    ensures ListedNames(conf + PeerBlock(u, publicKey, psk, ip)) == ListedNames(conf) + [u]
  {
    var b := PeerBlock(u, publicKey, psk, ip);
    var rest := "\n" + Join(PeerFields(u, publicKey, psk, ip)[2..]);
    var m := MarkerPrefix + u;
    BlockAtMarker(u, publicKey, psk, ip);
    assert b == ['\n'] + (m + rest);
    ScanConcat(conf, b, MarkerPrefix, WordChars);
    ScanSkipFirst('\n', m + rest, MarkerPrefix, WordChars);
    ScanConcat(m, rest, MarkerPrefix, WordChars);
    ScanSingle(MarkerPrefix, u, WordChars);
    NoMarkerAfterMarker(u, publicKey, psk, ip);
    ScanAbsent(rest, MarkerPrefix, WordChars);
  }
}
