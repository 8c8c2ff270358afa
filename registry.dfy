/**
 * addUser, deleteUser and listUsers over a host whose files are a map from
 * path to contents. Each operation is specified by a function that gives
 * its result, the files afterwards and the actions it performed, in order;
 * the `Host` methods perform the same steps one by one and are proved to
 * agree with those functions.
 */
module Registry {
  import opened Wrappers
  import opened Text
  import opened Scanner
  import opened Errors
  import opened Peers
  import opened Names
  import opened Allocator
  import opened Deletion
  import opened Listing
  import opened Profile
  import opened Settings

  /** What `awg genkey`, `awg pubkey` and `awg genpsk` printed (trimmed), or why one failed. */
  datatype KeyOutcome = Keys(privateKey: string, publicKey: string, psk: string) | KeysFailed(message: string)

  /** How `awg-quick down` and then `awg-quick up` ended. */
  datatype RestartOutcome = Restarted | DownFailed | UpFailed

  /** A change to the host that others can see, in the order it happened. */
  datatype Action =
    | WriteFile(path: string, contents: string)
    | AppendFile(path: string, text: string)
    | RemoveFile(path: string)
    | RunCommand(command: string)

  /** One element of listUsers' result; the older revision has no `config` field. */
  datatype UserEntry = UserEntry(username: string, ip: string, configFile: string, config: Option<string>, hasConfig: bool)

  /** addUser's return value: an entry in the current revision, the profile's file name in the older one. */
  datatype Added = AddedEntry(entry: UserEntry) | AddedFile(name: string)

  /** The result of an operation, the files after it, and what it did. */
  datatype Outcome<T> = Outcome(result: Result<T, Failure>, files: map<string, string>, actions: seq<Action>)

  function DownCommand(iface: string): string
  {
    "awg-quick down " + iface
  }

  function UpCommand(iface: string): string
  {
    "awg-quick up " + iface
  }

  /** restart(): the commands run, and the failure of the first that failed. */
  function RestartRun(iface: string, outcome: RestartOutcome): (run: (Option<Failure>, seq<Action>))
    ensures run.0.Some? ==> run.0.value.RestartFailed?
  {
    match outcome
    case Restarted => (None, [RunCommand(DownCommand(iface)), RunCommand(UpCommand(iface))])
    case DownFailed => (Some(RestartFailed(DownCommand(iface))), [RunCommand(DownCommand(iface))])
    case UpFailed => (Some(RestartFailed(UpCommand(iface))), [RunCommand(DownCommand(iface)), RunCommand(UpCommand(iface))])
  }

  /** The files generateClientConfig reads are there. */
  predicate CanRender(r: Revision, files: map<string, string>)
  {
    PublicKeyPath(r) in files && (r.Legacy? ==> ServerIpFile in files && VpnParamsFile in files)
  }

  /**
   * generateClientConfig's text. The server key is trimmed; the older
   * revision also reads `serverip.cfg` and the trimmed VPN parameters.
   */
  function ProfileFor(r: Revision, files: map<string, string>, privateKey: string, psk: string, ip: string): Result<string, Failure>
    requires CanRender(r, files)
  {
    var serverKey := Trim(files[PublicKeyPath(r)]);
    match r
    case Current(c) =>
      Ok(RenderProfile(privateKey, ip, c.dns, c.vpnParams, serverKey, psk, EndpointOf(c.serverIp, c.serverPort)))
    case Legacy =>
      match ReadServerIp(files[ServerIpFile])
      case Err(f) => Err(f)
      case Ok(sip) =>
        Ok(RenderProfile(privateKey, ip, sip.dns, Trim(files[VpnParamsFile]), serverKey, psk, sip.host + ":" + sip.port))
  }

  /**
   * addUser. Every failure except a failed restart happens before the first
   * write: the files are untouched and nothing was done.
   */
  function AddSpec(r: Revision, isRoot: bool, u: string, keys: KeyOutcome, restart: RestartOutcome,
                   files: map<string, string>): (o: Outcome<Added>)
    ensures o.result.Err? && !o.result.error.RestartFailed? ==> o.files == files && o.actions == []
    ensures o.result.Ok? ==> o.actions != []
    ensures o.actions != [] ==>
              |o.actions| >= 2 && o.actions[0].WriteFile? && o.actions[0].path == ProfilePath(r, u)
              && o.actions[1].AppendFile? && o.actions[1].path == ConfPath(r)
  {
    match EnvironmentCheck(r, isRoot, files.Keys)
    case Some(f) => Outcome(Err(f), files, [])
    case None =>
      EnvironmentPasses(r, isRoot, files.Keys);
      AddChecked(r, u, keys, restart, files)
  }

  /** addUser once the environment is known to be in place. */
  function AddChecked(r: Revision, u: string, keys: KeyOutcome, restart: RestartOutcome,
                      files: map<string, string>): (o: Outcome<Added>)
    requires ConfPath(r) in files && CanRender(r, files)
    ensures o.result.Err? && !o.result.error.RestartFailed? ==> o.files == files && o.actions == []
    ensures o.result.Ok? ==> o.actions != []
    ensures o.actions != [] ==>
              |o.actions| >= 2 && o.actions[0].WriteFile? && o.actions[0].path == ProfilePath(r, u)
              && o.actions[1].AppendFile? && o.actions[1].path == ConfPath(r)
  {
    var conf := files[ConfPath(r)];
    match ValidateUsername(u, conf)
    case Err(f) => Outcome(Err(f), files, [])
    case Ok(_) =>
      match keys
      case KeysFailed(message) => Outcome(Err(KeyGenerationFailed(message)), files, [])
      case Keys(privateKey, publicKey, psk) =>
        var ip := NextAddress(IpBase(r), conf);
        match ProfileFor(r, files, privateKey, psk, ip)
        case Err(f) => Outcome(Err(f), files, [])
        case Ok(profile) => Install(r, u, publicKey, psk, ip, profile, restart, files)
  }

  /** addUser after the checks: write the profile, append the block, then (current revision) restart. */
  function Install(r: Revision, u: string, publicKey: string, psk: string, ip: string, profile: string,
                   restart: RestartOutcome, files: map<string, string>): (o: Outcome<Added>)
    requires ConfPath(r) in files
    ensures o.result.Err? ==> o.result.error.RestartFailed?
    ensures |o.actions| >= 2 && o.actions[0] == WriteFile(ProfilePath(r, u), profile)
      && o.actions[1].AppendFile? && o.actions[1].path == ConfPath(r)
  {
    var path := ProfilePath(r, u);
    var block := PeerBlock(u, publicKey, psk, ip);
    var written := files[path := profile];
    var appended := written[ConfPath(r) := written[ConfPath(r)] + block];
    var writes := [WriteFile(path, profile), AppendFile(ConfPath(r), block)];
    match r
    case Legacy => Outcome(Ok(AddedFile(GetConfigName(u))), appended, writes)
    case Current(c) =>
      var run := RestartRun(c.interfaceName, restart);
      if run.0.Some? then Outcome(Err(run.0.value), appended, writes + run.1)
      else Outcome(Ok(AddedEntry(UserEntry(u, ip, path, Some(profile), path in appended))), appended, writes + run.1)
  }

  /**
   * deleteUser. The name is not validated: a delete succeeds only where the
   * marker is a substring of the configuration, and every failure except a
   * failed restart leaves the files untouched with nothing done.
   */
  function DeleteSpec(r: Revision, isRoot: bool, u: string, restart: RestartOutcome,
                      files: map<string, string>): (o: Outcome<bool>)
    ensures o.result.Ok? ==>
              EnvironmentCheck(r, isRoot, files.Keys).None? && ConfPath(r) in files && Contains(files[ConfPath(r)], Marker(u))
    ensures o.result.Err? && !o.result.error.RestartFailed? ==> o.files == files && o.actions == []
    ensures o.actions != [] ==>
              ConfPath(r) in files && Contains(files[ConfPath(r)], Marker(u))
              && o.actions[0] == WriteFile(ConfPath(r), DeletedText(files[ConfPath(r)], u))
  {
    match EnvironmentCheck(r, isRoot, files.Keys)
    case Some(f) => Outcome(Err(f), files, [])
    case None =>
      EnvironmentPasses(r, isRoot, files.Keys);
      if !Contains(files[ConfPath(r)], Marker(u)) then Outcome(Err(UserNotFound(u)), files, [])
      else Remove(r, u, restart, files)
  }

  /** deleteUser once the marker is known to be there: rewrite, unlink the profile, then (current revision) restart. */
  function Remove(r: Revision, u: string, restart: RestartOutcome, files: map<string, string>): (o: Outcome<bool>)
    requires ConfPath(r) in files
    ensures o.result.Err? ==> o.result.error.RestartFailed?
    ensures o.actions != [] && o.actions[0] == WriteFile(ConfPath(r), DeletedText(files[ConfPath(r)], u))
  {
    var text := DeletedText(files[ConfPath(r)], u);
    var rewritten := files[ConfPath(r) := text];
    var path := ProfilePath(r, u);
    var removed := if path in rewritten then rewritten - {path} else rewritten;
    var actions := [WriteFile(ConfPath(r), text)] + (if path in rewritten then [RemoveFile(path)] else []);
    match r
    case Legacy => Outcome(Ok(true), removed, actions)
    case Current(c) =>
      var run := RestartRun(c.interfaceName, restart);
      Outcome(if run.0.Some? then Err(run.0.value) else Ok(true), removed, actions + run.1)
  }

  /**
   * The entry listUsers builds for a captured name: the current revision
   * reads the profile and throws when it is missing; the older one only
   * asks whether it exists.
   */
  function EntryFor(r: Revision, conf: string, files: map<string, string>, name: string): Result<UserEntry, Failure>
  {
    var path := ProfilePath(r, name);
    match r
    case Legacy => Ok(UserEntry(name, IpOf(conf, name), path, None, path in files))
    case Current(_) =>
      if path in files then Ok(UserEntry(name, IpOf(conf, name), path, Some(files[path]), true))
      else Err(FileMissing(path))
  }

  /** `users` in front of a list of entries; a failure stays a failure. */
  function Prepend(users: seq<UserEntry>, rest: Result<seq<UserEntry>, Failure>): Result<seq<UserEntry>, Failure>
  {
    match rest
    case Ok(es) => Ok(users + es)
    case Err(f) => Err(f)
  }

  /** One entry in front of the rest, unless building it failed. */
  function Consed(first: Result<UserEntry, Failure>, rest: Result<seq<UserEntry>, Failure>): Result<seq<UserEntry>, Failure>
  {
    if first.Err? then Err(first.error) else Prepend([first.value], rest)
  }

  /** The entries for the captured names, in order, or the first failure. */
  function Entries(r: Revision, conf: string, files: map<string, string>, names: seq<string>): (res: Result<seq<UserEntry>, Failure>)
    ensures res.Ok? ==> |res.value| == |names|
  {
    if names == [] then Ok([])
    else Consed(EntryFor(r, conf, files, names[0]), Entries(r, conf, files, names[1..]))
  }

  /** listUsers: on success, one entry per name the expression captures. */
  function ListSpec(r: Revision, isRoot: bool, files: map<string, string>): (res: Result<seq<UserEntry>, Failure>)
    ensures res.Ok? ==>
              EnvironmentCheck(r, isRoot, files.Keys).None? && ConfPath(r) in files && |res.value| == |ListedNames(files[ConfPath(r)])|
  {
    match EnvironmentCheck(r, isRoot, files.Keys)
    case Some(f) => Err(f)
    case None =>
      EnvironmentPasses(r, isRoot, files.Keys);
      Entries(r, files[ConfPath(r)], files, ListedNames(files[ConfPath(r)]))
  }

  /** The host: its files, and the actions performed on it so far. */
  class Host {
    var files: map<string, string>
    var actions: seq<Action>

    constructor(initial: map<string, string>)
      ensures files == initial && actions == []
    {
      files := initial;
      actions := [];
    }

    /** restart(): `awg-quick down`, then `awg-quick up`; the first failure is thrown. */
    method Restart(iface: string, outcome: RestartOutcome) returns (failure: Option<Failure>)
      modifies this
      ensures failure == RestartRun(iface, outcome).0
      ensures files == old(files) && actions == old(actions) + RestartRun(iface, outcome).1
    {
      actions := actions + [RunCommand(DownCommand(iface))];
      if outcome == DownFailed {
        return Some(RestartFailed(DownCommand(iface)));
      }
      actions := actions + [RunCommand(UpCommand(iface))];
      if outcome == UpFailed {
        return Some(RestartFailed(UpCommand(iface)));
      }
      return None;
    }

    method AddUser(r: Revision, isRoot: bool, u: string, keys: KeyOutcome, restart: RestartOutcome)
      returns (result: Result<Added, Failure>)
      modifies this
      ensures var o := AddSpec(r, isRoot, u, keys, restart, old(files));
        result == o.result && files == o.files && actions == old(actions) + o.actions
    {
      var failure := ValidateEnvironment(r, isRoot, files.Keys);
      if failure.Some? {
        return Err(failure.value);
      }
      EnvironmentPasses(r, isRoot, files.Keys);
      var serverConfig := files[ConfPath(r)];
      var check := ValidateUsername(u, serverConfig);
      if check.Err? {
        return Err(check.error);
      }
      if keys.KeysFailed? {
        return Err(KeyGenerationFailed(keys.message));
      }
      var clientIP := NextClientIP(IpBase(r), serverConfig);
      var clientConfig := ProfileFor(r, files, keys.privateKey, keys.psk, clientIP);
      if clientConfig.Err? {
        return Err(clientConfig.error);
      }
      assert AddChecked(r, u, keys, restart, files)
        == Install(r, u, keys.publicKey, keys.psk, clientIP, clientConfig.value, restart, files);
      result := InstallUser(r, u, keys.publicKey, keys.psk, clientIP, clientConfig.value, restart);
    }

    /** addUser's writes: the profile, the appended block, then the restart of the current revision. */
    method InstallUser(r: Revision, u: string, publicKey: string, psk: string, clientIP: string,
                       clientConfig: string, restart: RestartOutcome)
      returns (result: Result<Added, Failure>)
      requires ConfPath(r) in files
      modifies this
      ensures var o := Install(r, u, publicKey, psk, clientIP, clientConfig, restart, old(files));
        result == o.result && files == o.files && actions == old(actions) + o.actions
    {
      var userConfigLocation := ProfilePath(r, u);
      files := files[userConfigLocation := clientConfig];
      actions := actions + [WriteFile(userConfigLocation, clientConfig)];
      var peerConfig := PeerBlock(u, publicKey, psk, clientIP);
      files := files[ConfPath(r) := files[ConfPath(r)] + peerConfig];
      actions := actions + [AppendFile(ConfPath(r), peerConfig)];
      match r
      case Legacy =>
        result := Ok(AddedFile(GetConfigName(u)));
      case Current(c) =>
        var restartFailure := Restart(c.interfaceName, restart);
        if restartFailure.Some? {
          result := Err(restartFailure.value);
        } else {
          result := Ok(AddedEntry(UserEntry(u, clientIP, userConfigLocation, Some(clientConfig), userConfigLocation in files)));
        }
    }

    method DeleteUser(r: Revision, isRoot: bool, u: string, restart: RestartOutcome)
      returns (result: Result<bool, Failure>)
      modifies this
      ensures var o := DeleteSpec(r, isRoot, u, restart, old(files));
        result == o.result && files == o.files && actions == old(actions) + o.actions
    {
      var failure := ValidateEnvironment(r, isRoot, files.Keys);
      if failure.Some? {
        return Err(failure.value);
      }
      EnvironmentPasses(r, isRoot, files.Keys);
      var serverConfig := files[ConfPath(r)];
      if !Contains(serverConfig, Marker(u)) {
        return Err(UserNotFound(u));
      }
      result := RemoveUser(r, u, restart);
    }

    /** deleteUser's writes: the filtered lines, the unlinked profile, then the restart of the current revision. */
    method RemoveUser(r: Revision, u: string, restart: RestartOutcome) returns (result: Result<bool, Failure>)
      requires ConfPath(r) in files
      modifies this
      ensures var o := Remove(r, u, restart, old(files));
        result == o.result && files == o.files && actions == old(actions) + o.actions
    {
      var lines := Split(files[ConfPath(r)]);
      var filteredLines := FilterLines(lines, Marker(u));
      var text := Join(filteredLines);
      assert text == DeletedText(files[ConfPath(r)], u);
      files := files[ConfPath(r) := text];
      var performed := [WriteFile(ConfPath(r), text)];
      var configFile := ProfilePath(r, u);
      if configFile in files {
        files := files - {configFile};
        performed := performed + [RemoveFile(configFile)];
      }
      actions := actions + performed;
      result := Ok(true);
      match r
      case Legacy =>
      case Current(c) =>
        var restartFailure := Restart(c.interfaceName, restart);
        assert actions == old(actions) + (performed + RestartRun(c.interfaceName, restart).1);
        if restartFailure.Some? {
          result := Err(restartFailure.value);
        }
    }

    /** listUsers: the `exec` loop over the markers, building one entry per captured name. */
    method ListUsers(r: Revision, isRoot: bool) returns (result: Result<seq<UserEntry>, Failure>)
      ensures result == ListSpec(r, isRoot, files)
    {
      var failure := ValidateEnvironment(r, isRoot, files.Keys);
      if failure.Some? {
        return Err(failure.value);
      }
      EnvironmentPasses(r, isRoot, files.Keys);
      var serverConfig := files[ConfPath(r)];
      var users: seq<UserEntry> := [];
      var i := 0;
      ghost var listed := Entries(r, serverConfig, files, ListedNames(serverConfig));
      assert ListSpec(r, isRoot, files) == listed;
      PrependNothing(listed);
      while i < |serverConfig|
        invariant i <= |serverConfig|
        invariant listed == Prepend(users, Entries(r, serverConfig, files, ScanFrom(serverConfig, MarkerPrefix, WordChars, i)))
      {
        if MatchAt(serverConfig, MarkerPrefix, WordChars, i) {
          var e := RunEnd(serverConfig, WordChars, i + |MarkerPrefix|);
          var username := serverConfig[i + |MarkerPrefix|..e];
          ListMatchStep(r, serverConfig, files, users, i);
          var entry := EntryFor(r, serverConfig, files, username);
          if entry.Err? {
            return Err(entry.error);
          }
          users := users + [entry.value];
          i := e;
        } else {
          ScanSkipStep(serverConfig, MarkerPrefix, WordChars, i);
          i := i + 1;
        }
      }
      result := Ok(users);
      assert users + [] == users;
    }
  }

  /** One `exec` match while listing: its entry is built, or its failure ends the listing. */
  lemma {:induction false} ListMatchStep(r: Revision, conf: string, files: map<string, string>, users: seq<UserEntry>, i: nat)
    requires i <= |conf| && MatchAt(conf, MarkerPrefix, WordChars, i)
    ensures var e := RunEnd(conf, WordChars, i + |MarkerPrefix|);
      var entry := EntryFor(r, conf, files, conf[i + |MarkerPrefix|..e]);
      Prepend(users, Entries(r, conf, files, ScanFrom(conf, MarkerPrefix, WordChars, i)))
        == if entry.Err? then Err(entry.error)
          else Prepend(users + [entry.value], Entries(r, conf, files, ScanFrom(conf, MarkerPrefix, WordChars, e)))
  {
    var e := RunEnd(conf, WordChars, i + |MarkerPrefix|);
    var name := conf[i + |MarkerPrefix|..e];
    var rest := ScanFrom(conf, MarkerPrefix, WordChars, e);
    ScanMatchStep(conf, MarkerPrefix, WordChars, i);
    EntriesStep(r, conf, files, name, rest);
    var entry := EntryFor(r, conf, files, name);
    if entry.Ok? {
      PrependStep(users, entry.value, Entries(r, conf, files, rest));
    }
  }

  /** One more name in front: its entry, or its failure. */
  lemma {:induction false} EntriesStep(r: Revision, conf: string, files: map<string, string>, name: string, rest: seq<string>)
    ensures Entries(r, conf, files, [name] + rest) == Consed(EntryFor(r, conf, files, name), Entries(r, conf, files, rest))
  {
    assert ([name] + rest)[0] == name && ([name] + rest)[1..] == rest;
  }

  lemma {:induction false} PrependNothing(rest: Result<seq<UserEntry>, Failure>)
    ensures Prepend([], rest) == rest
  {
    if rest.Ok? {
      assert [] + rest.value == rest.value;
    }
  }

  /** Moving one built entry from the rest onto the users already built. */
  lemma {:induction false} PrependStep(users: seq<UserEntry>, e: UserEntry, rest: Result<seq<UserEntry>, Failure>)
    ensures Prepend(users, Consed(Ok(e), rest)) == Prepend(users + [e], rest)
  {
    if rest.Ok? {
      assert users + ([e] + rest.value) == users + [e] + rest.value;
    }
  }
}
