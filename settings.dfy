/**
 * Where each revision keeps its files, and the environment check both run
 * first. The current revision takes its names from a configuration
 * record; the older one has them as constants.
 */
module Settings {
  import opened Wrappers
  import opened Errors
  import opened Allocator

  /** The values the current revision reads from its configuration module. */
  datatype Config = Config(
    interfaceName: string,
    userKeysRoot: string,
    publicKeyFile: string,
    clientIpBase: string,
    serverIp: string,
    serverPort: nat,
    dns: string,
    vpnParams: string)

  /** Which revision runs: the older file at the top of the repository, or the current one. */
  datatype Revision = Legacy | Current(config: Config)

  const VpnParamsFile: string := "./vpn_params.cfg"
  const LegacyConfFile: string := "awg0.conf"
  const LegacyPublicKeyFile: string := "server_public_metaligh.key"
  const ServerIpFile: string := "serverip.cfg"

  /** `<iface>.conf`; also the `<u>.conf` name of a profile. The name is recovered by dropping the suffix. */
  function GetConfigName(iface: string): (r: string)
    ensures |r| == |iface| + 5 && r[..|iface|] == iface && r[|iface|..] == ".conf"
  {
    iface + ".conf"
  }

  /** Different interfaces (or users) get different file names. */
  lemma {:induction false} ConfigNameInjective(a: string, b: string)
    requires GetConfigName(a) == GetConfigName(b)
    ensures a == b
  {
    assert a == GetConfigName(a)[..|a|];
  }

  /** The server configuration file. */
  function ConfPath(r: Revision): string
  {
    match r
    case Legacy => LegacyConfFile
    case Current(c) => GetConfigName(c.interfaceName)
  }

  /** The server's public key file. */
  function PublicKeyPath(r: Revision): string
  {
    match r
    case Legacy => LegacyPublicKeyFile
    case Current(c) => c.publicKeyFile
  }

  /** The user's profile: `<u>.conf` in the working directory, or under the keys root. */
  function ProfilePath(r: Revision, u: string): string
  {
    match r
    case Legacy => GetConfigName(u)
    case Current(c) => c.userKeysRoot + "/" + GetConfigName(u)
  }

  /** The text in front of the octet of an allocated address. */
  function IpBase(r: Revision): string
  {
    match r
    case Legacy => Subnet
    case Current(c) => c.clientIpBase
  }

  /** The files validateEnvironment demands, in the order it checks them. */
  function RequiredFiles(r: Revision): (paths: seq<string>)
    ensures ConfPath(r) in paths && PublicKeyPath(r) in paths
    ensures r.Legacy? ==> VpnParamsFile in paths && ServerIpFile in paths
  {
    match r
    case Legacy => [VpnParamsFile, LegacyConfFile, LegacyPublicKeyFile, ServerIpFile]
    case Current(c) => [ConfPath(r), c.publicKeyFile]
  }

  /** The first of `paths` that is not present. */
  function FirstMissing(paths: seq<string>, present: set<string>): (r: Option<string>)
    ensures r.None? <==> forall k :: 0 <= k < |paths| ==> paths[k] in present
    ensures r.Some? ==>
      exists k :: 0 <= k < |paths| && paths[k] == r.value && r.value !in present
        && (forall j :: 0 <= j < k ==> paths[j] in present)
  {
    if paths == [] then None
    else if paths[0] !in present then Some(paths[0])
    else
      var rest := FirstMissing(paths[1..], present);
      assert forall k :: 1 <= k < |paths| ==> paths[k] == paths[1..][k - 1];
      if rest.Some? then
        var k :| 0 <= k < |paths[1..]| && paths[1..][k] == rest.value && rest.value !in present
          && (forall j :: 0 <= j < k ==> paths[1..][j] in present);
        assert paths[k + 1] == rest.value;
        rest
      else rest
  }

  /** What validateEnvironment does: exit when not root, then when a required file is missing. */
  function EnvironmentCheck(r: Revision, isRoot: bool, present: set<string>): Option<Failure>
  {
    if !isRoot then Some(NotRoot)
    else match FirstMissing(RequiredFiles(r), present)
      case Some(path) => Some(RequiredFileMissing(path))
      case None => None
  }

  /** The check passes exactly when running as root with every required file present. */
  lemma {:induction false} EnvironmentPasses(r: Revision, isRoot: bool, present: set<string>)
    ensures EnvironmentCheck(r, isRoot, present).None? <==>
      isRoot && forall k :: 0 <= k < |RequiredFiles(r)| ==> RequiredFiles(r)[k] in present
    ensures EnvironmentCheck(r, isRoot, present).None? ==>
      ConfPath(r) in present && PublicKeyPath(r) in present
      && (r.Legacy? ==> VpnParamsFile in present && ServerIpFile in present)
  {
  }

  /** validateEnvironment: the root check, then the `for` loop over the required files. */
  method ValidateEnvironment(r: Revision, isRoot: bool, present: set<string>) returns (failure: Option<Failure>)
    ensures failure == EnvironmentCheck(r, isRoot, present)
  {
    if !isRoot {
      return Some(NotRoot);
    }
    var requiredFiles := RequiredFiles(r);
    for i := 0 to |requiredFiles|
      invariant FirstMissing(requiredFiles, present) == FirstMissing(requiredFiles[i..], present)
    {
      assert requiredFiles[i..][1..] == requiredFiles[i + 1..];
      if requiredFiles[i] !in present {
        return Some(RequiredFileMissing(requiredFiles[i]));
      }
    }
    assert requiredFiles[|requiredFiles|..] == [];
    return None;
  }

  /**
   * In the older revision the profile of the user `awg0` is the server
   * configuration file itself, and no other user's profile is.
   */
  lemma {:induction false} LegacyProfileAliasesConf(u: string)
    ensures ProfilePath(Legacy, u) == ConfPath(Legacy) <==> u == "awg0"
  {
    if ProfilePath(Legacy, u) == ConfPath(Legacy) {
      assert GetConfigName(u) == GetConfigName("awg0");
      ConfigNameInjective(u, "awg0");
    }
  }

  /** In the current revision an interface name without `/` never names a profile. */
  lemma {:induction false} CurrentProfileApart(c: Config, u: string)
    requires '/' !in c.interfaceName
    ensures ProfilePath(Current(c), u) != ConfPath(Current(c))
  {
    var p := ProfilePath(Current(c), u);
    assert p[|c.userKeysRoot|] == '/';
  }

  /** Different users have different profiles in either revision. */
  lemma {:induction false} ProfilePathInjective(r: Revision, u: string, v: string)
    requires ProfilePath(r, u) == ProfilePath(r, v)
    ensures u == v
  {
    match r
    case Legacy =>
      ConfigNameInjective(u, v);
    case Current(c) =>
      var n := |c.userKeysRoot + "/"|;
      assert GetConfigName(u) == ProfilePath(r, u)[n..];
      assert GetConfigName(v) == ProfilePath(r, v)[n..];
      ConfigNameInjective(u, v);
  }
}
