/**
 * What addUser, deleteUser and listUsers promise when they are run one
 * after another on the same host.
 */
module Scenarios {
  import opened Wrappers
  import opened Text
  import opened Numbers
  import opened Errors
  import opened Peers
  import opened Names
  import opened Allocator
  import opened Deletion
  import opened Listing
  import opened Profile
  import opened Settings
  import opened Registry

  /** restart() always runs `down` first, runs `up` only after `down` succeeded, and fails exactly when a command did. */
  lemma {:induction false} RestartOrder(iface: string, outcome: RestartOutcome)
    ensures var run := RestartRun(iface, outcome);
      |run.1| >= 1 && run.1[0] == RunCommand(DownCommand(iface))
      && (run.1 == [RunCommand(DownCommand(iface)), RunCommand(UpCommand(iface))] <==> outcome != DownFailed)
      && (run.0.None? <==> outcome == Restarted)
  {
  }


  /** addUser succeeds exactly when every check passes and, in the current revision, the restart succeeds. */
  lemma {:induction false} AddSucceedsIff(r: Revision, isRoot: bool, u: string, keys: KeyOutcome,
                                          restart: RestartOutcome, files: map<string, string>)
    ensures AddSpec(r, isRoot, u, keys, restart, files).result.Ok? <==>
      EnvironmentCheck(r, isRoot, files.Keys).None?
      && IsUserName(u) && !Contains(files[ConfPath(r)], Marker(u))
      && keys.Keys?
      && ProfileFor(r, files, keys.privateKey, keys.psk, NextAddress(IpBase(r), files[ConfPath(r)])).Ok?
      && (r.Current? ==> restart == Restarted)
  {
    EnvironmentPasses(r, isRoot, files.Keys);
  }

  /** When addUser does anything at all, every check passed and it installed the rendered profile. */
  lemma {:induction false} AddActed(r: Revision, isRoot: bool, u: string, keys: KeyOutcome,
                                    restart: RestartOutcome, files: map<string, string>)
    requires AddSpec(r, isRoot, u, keys, restart, files).actions != []
    ensures EnvironmentCheck(r, isRoot, files.Keys).None? && ConfPath(r) in files && CanRender(r, files)
    ensures keys.Keys? && IsUserName(u) && !Contains(files[ConfPath(r)], Marker(u))
    ensures var ip := NextAddress(IpBase(r), files[ConfPath(r)]);
      var profile := ProfileFor(r, files, keys.privateKey, keys.psk, ip);
      profile.Ok? && AddSpec(r, isRoot, u, keys, restart, files)
        == Install(r, u, keys.publicKey, keys.psk, ip, profile.value, restart, files)
  {
    EnvironmentPasses(r, isRoot, files.Keys);
  }

  /** Install writes the profile, then appends the block, then restarts; it touches no other file. */
  lemma {:induction false} InstallWrites(r: Revision, u: string, publicKey: string, psk: string, ip: string,
                                         profile: string, restart: RestartOutcome, files: map<string, string>)
    requires ConfPath(r) in files
    ensures var o := Install(r, u, publicKey, psk, ip, profile, restart, files);
      var path := ProfilePath(r, u);
      var block := PeerBlock(u, publicKey, psk, ip);
      |o.actions| >= 2 && o.actions[0] == WriteFile(path, profile)
      && o.actions[1] == AppendFile(ConfPath(r), block)
      && (r.Legacy? ==> |o.actions| == 2)
      && (r.Current? ==> |o.actions| >= 3 && o.actions[2] == RunCommand(DownCommand(r.config.interfaceName)))
      && o.files.Keys == files.Keys + {path}
      && o.files[ConfPath(r)] == (if path == ConfPath(r) then profile else files[ConfPath(r)]) + block
      && (path != ConfPath(r) ==> o.files[path] == profile)
      && (forall p :: p in files && p != path && p != ConfPath(r) ==> o.files[p] == files[p])
  {
  }

  /**
   * Once addUser writes anything, it writes the profile first, then appends
   * the peer block with the next address to the server configuration, then
   * (current revision) runs `awg-quick down`. No other file changes, and
   * the only new file is the profile.
   */
  lemma {:induction false} AddWrites(r: Revision, isRoot: bool, u: string, keys: KeyOutcome,
                                     restart: RestartOutcome, files: map<string, string>)
    requires AddSpec(r, isRoot, u, keys, restart, files).actions != []
    ensures keys.Keys? && ConfPath(r) in files
    ensures var o := AddSpec(r, isRoot, u, keys, restart, files);
      var path := ProfilePath(r, u);
      var block := PeerBlock(u, keys.publicKey, keys.psk, NextAddress(IpBase(r), files[ConfPath(r)]));
      |o.actions| >= 2 && o.actions[0].WriteFile? && o.actions[0].path == path
      && o.actions[1] == AppendFile(ConfPath(r), block)
      && (r.Legacy? ==> |o.actions| == 2)
      && (r.Current? ==> |o.actions| >= 3 && o.actions[2] == RunCommand(DownCommand(r.config.interfaceName)))
      && o.files.Keys == files.Keys + {path}
      && o.files[ConfPath(r)] == (if path == ConfPath(r) then o.actions[0].contents else files[ConfPath(r)]) + block
      && (path != ConfPath(r) ==> o.files[path] == o.actions[0].contents)
      && (forall p :: p in files && p != path && p != ConfPath(r) ==> o.files[p] == files[p])
  {
    AddActed(r, isRoot, u, keys, restart, files);
    var ip := NextAddress(IpBase(r), files[ConfPath(r)]);
    InstallWrites(r, u, keys.publicKey, keys.psk, ip, ProfileFor(r, files, keys.privateKey, keys.psk, ip).value, restart, files);
  }

  /**
   * In the older revision adding the user `awg0` writes its profile over the
   * server configuration and then appends the block to that profile.
   */
  lemma {:induction false} LegacyAwg0Overwrites(isRoot: bool, keys: KeyOutcome, restart: RestartOutcome,
                                                files: map<string, string>)
    requires AddSpec(Legacy, isRoot, "awg0", keys, restart, files).result.Ok?
    ensures var o := AddSpec(Legacy, isRoot, "awg0", keys, restart, files);
      keys.Keys? && LegacyConfFile in files
      && o.actions[0] == WriteFile(LegacyConfFile, o.actions[0].contents)
      && o.files[LegacyConfFile]
        == o.actions[0].contents + PeerBlock("awg0", keys.publicKey, keys.psk, NextAddress(Subnet, files[LegacyConfFile]))
  {
    LegacyProfileAliasesConf("awg0");
    AddWrites(Legacy, isRoot, "awg0", keys, restart, files);
  }

  /**
   * The entry the current revision returns: the user, the next address,
   * the profile's path, the profile as written, and `hasConfig` set.
   */
  lemma {:induction false} AddedEntryFacts(c: Config, isRoot: bool, u: string, keys: KeyOutcome,
                                           restart: RestartOutcome, files: map<string, string>)
    requires AddSpec(Current(c), isRoot, u, keys, restart, files).result.Ok?
    ensures var o := AddSpec(Current(c), isRoot, u, keys, restart, files);
      ConfPath(Current(c)) in files && o.result.value.AddedEntry?
      && o.result.value.entry == UserEntry(u, NextAddress(c.clientIpBase, files[ConfPath(Current(c))]),
                                          ProfilePath(Current(c), u), Some(o.actions[0].contents), true)
  {
    var r := Current(c);
    EnvironmentPasses(r, isRoot, files.Keys);
    AddWrites(r, isRoot, u, keys, restart, files);
  }

  /**
   * The profile addUser writes in the current revision starts with the
   * interface section and the user's key, gives the allocated address
   * with a /32 mask on its third line, and ends by routing all traffic.
   */
  lemma {:induction false} AddedProfileShape(c: Config, isRoot: bool, u: string, keys: KeyOutcome,
                                             restart: RestartOutcome, files: map<string, string>)
    requires AddSpec(Current(c), isRoot, u, keys, restart, files).actions != []
    requires '\n' !in keys.privateKey && IsAddressText(c.clientIpBase)
    ensures ConfPath(Current(c)) in files
    ensures var o := AddSpec(Current(c), isRoot, u, keys, restart, files);
      var lines := Split(o.actions[0].contents);
      |lines| >= 4 && lines[0] == "[Interface]" && lines[1] == "PrivateKey = " + keys.privateKey
      && lines[2] == "Address = " + NextAddress(c.clientIpBase, files[ConfPath(Current(c))]) + "/32"
      && lines[|lines| - 1] == FullTunnel
  {
    var r := Current(c);
    EnvironmentPasses(r, isRoot, files.Keys);
    AddWrites(r, isRoot, u, keys, restart, files);
    var ip := NextAddress(c.clientIpBase, files[ConfPath(r)]);
    NextAddressIsAddress(c.clientIpBase, files[ConfPath(r)]);
    AddressIsFieldText(ip);
    ProfileShape(keys.privateKey, ip, c.dns, c.vpnParams, Trim(files[PublicKeyPath(r)]), keys.psk,
                 EndpointOf(c.serverIp, c.serverPort));
  }

  /** An address base of digits and dots yields addresses of digits and dots. */
  lemma {:induction false} NextAddressIsAddress(base: string, conf: string)
    requires IsAddressText(base)
    ensures IsAddressText(NextAddress(base, conf))
  {
    var n := ShowNat(NextOctet(Octets(conf)));
    var ip := base + n;
    forall i | 0 <= i < |ip| ensures IsDigit(ip[i]) || ip[i] == '.' {
      if i >= |base| {
        assert ip[i] == n[i - |base|];
      }
    }
  }

  /** The environment check only looks at which files exist, so adding a file never makes it fail. */
  lemma {:induction false} EnvironmentGrows(r: Revision, isRoot: bool, before: set<string>, after: set<string>)
    requires EnvironmentCheck(r, isRoot, before).None? && before <= after
    ensures EnvironmentCheck(r, isRoot, after).None?
  {
    EnvironmentPasses(r, isRoot, before);
    EnvironmentPasses(r, isRoot, after);
  }

  /**
   * The text after addUser appends a block to a configuration without the
   * user: the marker is there, deleting the user gives back the text,
   * listing reports the allocated address, and the user is the last name
   * listed.
   */
  lemma {:induction false} AppendedPeerText(conf: string, u: string, publicKey: string, psk: string, base: string)
    requires IsUserName(u) && IsKeyText(publicKey) && IsKeyText(psk) && IsAddressText(base)
    requires !Contains(conf, Marker(u))
    ensures var ip := NextAddress(base, conf);
      var s := conf + PeerBlock(u, publicKey, psk, ip);
      Contains(s, Marker(u)) && DeletedText(s, u) == conf && IpOf(s, u) == ip
      && ListedNames(s) == ListedNames(conf) + [u]
  {
    var ip := NextAddress(base, conf);
    UserNameIsFieldText(u);
    KeyIsFieldText(publicKey);
    KeyIsFieldText(psk);
    NextAddressIsAddress(base, conf);
    AddressIsFieldText(ip);
    MarkerAfterText(conf, u, publicKey, psk, ip);
    DeleteLastRestores(conf, u, publicKey, psk, ip);
    IpAfterAppend(conf, u, publicKey, psk, ip);
    ListedNamesAfterAppend(conf, u, publicKey, psk, ip);
  }

  /** What a successful addUser leaves behind, in the terms the round trips need. */
  lemma {:induction false} AddedFiles(r: Revision, isRoot: bool, u: string, keys: KeyOutcome,
                                      restart: RestartOutcome, files: map<string, string>)
    requires AddSpec(r, isRoot, u, keys, restart, files).result.Ok?
    requires ProfilePath(r, u) != ConfPath(r)
    ensures keys.Keys? && ConfPath(r) in files && IsUserName(u) && !Contains(files[ConfPath(r)], Marker(u))
    ensures var o := AddSpec(r, isRoot, u, keys, restart, files);
      var ip := NextAddress(IpBase(r), files[ConfPath(r)]);
      EnvironmentCheck(r, isRoot, o.files.Keys).None?
      && o.files == files[ProfilePath(r, u) := o.actions[0].contents]
                         [ConfPath(r) := files[ConfPath(r)] + PeerBlock(u, keys.publicKey, keys.psk, ip)]
      && o.result == (if r.Legacy? then Ok(AddedFile(GetConfigName(u)))
                      else Ok(AddedEntry(UserEntry(u, ip, ProfilePath(r, u), Some(o.actions[0].contents), true))))
  {
    var o := AddSpec(r, isRoot, u, keys, restart, files);
    assert o.actions != [] by {
      AddSucceedsIff(r, isRoot, u, keys, restart, files);
    }
    AddActed(r, isRoot, u, keys, restart, files);
    var ip := NextAddress(IpBase(r), files[ConfPath(r)]);
    InstallWrites(r, u, keys.publicKey, keys.psk, ip, ProfileFor(r, files, keys.privateKey, keys.psk, ip).value, restart, files);
    EnvironmentGrows(r, isRoot, files.Keys, o.files.Keys);
  }

  /**
   * Adding a user with keys in base64 and then deleting that user gives back
   * exactly the files there were before: the block is the last one, so the
   * window drops it whole, and the new profile is unlinked.
   */
  lemma {:induction false} AddThenDeleteRestores(r: Revision, isRoot: bool, u: string, keys: KeyOutcome,
                                                 restart: RestartOutcome, restart2: RestartOutcome,
                                                 files: map<string, string>)
    requires AddSpec(r, isRoot, u, keys, restart, files).result.Ok?
    requires ProfilePath(r, u) !in files
    requires IsKeyText(keys.publicKey) && IsKeyText(keys.psk) && IsAddressText(IpBase(r))
    ensures var added := AddSpec(r, isRoot, u, keys, restart, files).files;
      var o := DeleteSpec(r, isRoot, u, restart2, added);
      o.files == files && ConfPath(r) in files && |o.actions| >= 2
      && o.actions[0] == WriteFile(ConfPath(r), files[ConfPath(r)]) && o.actions[1] == RemoveFile(ProfilePath(r, u))
      && (r.Legacy? || restart2 == Restarted ==> o.result == Ok(true))
  {
    var path := ProfilePath(r, u);
    assert path != ConfPath(r) by {
      AddSucceedsIff(r, isRoot, u, keys, restart, files);
      EnvironmentPasses(r, isRoot, files.Keys);
    }
    AddedFiles(r, isRoot, u, keys, restart, files);
    var added := AddSpec(r, isRoot, u, keys, restart, files).files;
    var conf := files[ConfPath(r)];
    AppendedPeerText(conf, u, keys.publicKey, keys.psk, IpBase(r));
    DeleteAfterAdd(r, isRoot, u, restart2, added);
    UndoWrites(files, ConfPath(r), path, AddSpec(r, isRoot, u, keys, restart, files).actions[0].contents,
               conf + PeerBlock(u, keys.publicKey, keys.psk, NextAddress(IpBase(r), conf)));
  }

  /** Writing a new file and rewriting another, then restoring the second and removing the first, changes nothing. */
  lemma {:induction false} UndoWrites(files: map<string, string>, conf: string, path: string, x: string, y: string)
    requires conf in files && path !in files
    ensures files[path := x][conf := y][conf := files[conf]] - {path} == files
  {
    var m := files[path := x][conf := y][conf := files[conf]] - {path};
    assert m.Keys == files.Keys;
    forall p | p in m ensures m[p] == files[p] {
    }
  }

  /**
   * Nothing reserves an address: after a user is added and deleted again,
   * the next user is offered the address the deleted one had.
   */
  lemma {:induction false} AddressReissued(r: Revision, isRoot: bool, u: string, keys: KeyOutcome,
                                           restart: RestartOutcome, restart2: RestartOutcome,
                                           files: map<string, string>)
    requires AddSpec(r, isRoot, u, keys, restart, files).result.Ok?
    requires ProfilePath(r, u) !in files
    requires IsKeyText(keys.publicKey) && IsKeyText(keys.psk) && IsAddressText(IpBase(r))
    ensures var added := AddSpec(r, isRoot, u, keys, restart, files);
      var deleted := DeleteSpec(r, isRoot, u, restart2, added.files).files;
      ConfPath(r) in deleted && added.actions[1].AppendFile?
      && added.actions[1].text == PeerBlock(u, keys.publicKey, keys.psk, NextAddress(IpBase(r), deleted[ConfPath(r)]))
  {
    AddThenDeleteRestores(r, isRoot, u, keys, restart, restart2, files);
    assert AddSpec(r, isRoot, u, keys, restart, files).actions != [] by {
      AddSucceedsIff(r, isRoot, u, keys, restart, files);
    }
    AddWrites(r, isRoot, u, keys, restart, files);
  }

  /** deleteUser on a configuration holding the marker, with the profile present and apart from it. */
  lemma {:induction false} DeleteAfterAdd(r: Revision, isRoot: bool, u: string, restart: RestartOutcome,
                                          files: map<string, string>)
    requires EnvironmentCheck(r, isRoot, files.Keys).None?
    requires ConfPath(r) in files && Contains(files[ConfPath(r)], Marker(u))
    requires ProfilePath(r, u) in files && ProfilePath(r, u) != ConfPath(r)
    ensures var o := DeleteSpec(r, isRoot, u, restart, files);
      var text := DeletedText(files[ConfPath(r)], u);
      o.files == files[ConfPath(r) := text] - {ProfilePath(r, u)}
      && o.actions[..2] == [WriteFile(ConfPath(r), text), RemoveFile(ProfilePath(r, u))]
      && (r.Legacy? || restart == Restarted ==> o.result == Ok(true))
  {
  }

  /**
   * Listing right after the first user is added to a configuration with no
   * peers gives exactly that user, with the allocated address and the
   * profile as written.
   */
  lemma {:induction false} AddThenList(r: Revision, isRoot: bool, u: string, keys: KeyOutcome,
                                       restart: RestartOutcome, files: map<string, string>)
    requires AddSpec(r, isRoot, u, keys, restart, files).result.Ok?
    requires ProfilePath(r, u) != ConfPath(r)
    requires IsKeyText(keys.publicKey) && IsKeyText(keys.psk) && IsAddressText(IpBase(r))
    requires ConfPath(r) in files && !Contains(files[ConfPath(r)], MarkerPrefix)
    ensures var o := AddSpec(r, isRoot, u, keys, restart, files);
      ListSpec(r, isRoot, o.files) == Ok([UserEntry(u, NextAddress(IpBase(r), files[ConfPath(r)]), ProfilePath(r, u),
                                               if r.Current? then Some(o.actions[0].contents) else None, true)])
  {
    AddedFiles(r, isRoot, u, keys, restart, files);
    var o := AddSpec(r, isRoot, u, keys, restart, files);
    var conf := files[ConfPath(r)];
    AppendedPeerText(conf, u, keys.publicKey, keys.psk, IpBase(r));
    NoMarkerNoNames(conf);
    ListOneName(r, isRoot, u, o.files);
  }

  /** listUsers over a configuration whose only captured name is `u`. */
  lemma {:induction false} ListOneName(r: Revision, isRoot: bool, u: string, files: map<string, string>)
    requires EnvironmentCheck(r, isRoot, files.Keys).None?
    requires ConfPath(r) in files && ListedNames(files[ConfPath(r)]) == [u]
    requires ProfilePath(r, u) in files
    ensures ListSpec(r, isRoot, files) == Ok([UserEntry(u, IpOf(files[ConfPath(r)], u), ProfilePath(r, u),
                                                   if r.Current? then Some(files[ProfilePath(r, u)]) else None, true)])
  {
    var conf := files[ConfPath(r)];
    EntriesStep(r, conf, files, u, []);
    assert [u] == [u] + [];
    assert Entries(r, conf, files, []) == Ok([]);
    var e := EntryFor(r, conf, files, u);
    assert e.Ok? && [e.value] + [] == [e.value];
  }

  /**
   * deleteUser writes only when the marker is in the configuration; it does
   * not check that the name is one addUser would accept.
   */
  lemma {:induction false} DeleteActsIffMarker(r: Revision, isRoot: bool, u: string, restart: RestartOutcome,
                                               files: map<string, string>)
    ensures DeleteSpec(r, isRoot, u, restart, files).actions != [] <==>
      EnvironmentCheck(r, isRoot, files.Keys).None? && Contains(files[ConfPath(r)], Marker(u))
    ensures var o := DeleteSpec(r, isRoot, u, restart, files);
      o.result.Err? && !o.result.error.RestartFailed? ==> o.files == files && o.actions == []
  {
    EnvironmentPasses(r, isRoot, files.Keys);
  }

  /**
   * Once deleteUser acts, the configuration holds the filtered text, the
   * user's profile is gone, and every other file is as it was.
   */
  lemma {:induction false} DeleteWrites(r: Revision, isRoot: bool, u: string, restart: RestartOutcome,
                                        files: map<string, string>)
    requires DeleteSpec(r, isRoot, u, restart, files).actions != []
    ensures ConfPath(r) in files
    ensures var o := DeleteSpec(r, isRoot, u, restart, files);
      var path := ProfilePath(r, u);
      o.actions[0] == WriteFile(ConfPath(r), DeletedText(files[ConfPath(r)], u))
      && path !in o.files
      && (path != ConfPath(r) ==> o.files[ConfPath(r)] == DeletedText(files[ConfPath(r)], u))
      && o.files.Keys == files.Keys - {path}
      && (forall p :: p in files && p != path && p != ConfPath(r) ==> o.files[p] == files[p])
  {
    assert DeleteSpec(r, isRoot, u, restart, files) == Remove(r, u, restart, files);
    RemoveWrites(r, u, restart, files);
  }

  /** The files after the rewrite and the unlink: the profile is gone and the configuration filtered. */
  lemma {:induction false} RemoveWrites(r: Revision, u: string, restart: RestartOutcome, files: map<string, string>)
    requires ConfPath(r) in files
    ensures var o := Remove(r, u, restart, files);
      var path := ProfilePath(r, u);
      path !in o.files
      && (path != ConfPath(r) ==> o.files[ConfPath(r)] == DeletedText(files[ConfPath(r)], u))
      && o.files.Keys == files.Keys - {path}
      && (forall p :: p in files && p != path && p != ConfPath(r) ==> o.files[p] == files[p])
  {
  }

  /** In the older revision deleting `awg0` unlinks the server configuration itself. */
  lemma {:induction false} LegacyDeleteAwg0(isRoot: bool, restart: RestartOutcome, files: map<string, string>)
    requires DeleteSpec(Legacy, isRoot, "awg0", restart, files).result.Ok?
    ensures LegacyConfFile !in DeleteSpec(Legacy, isRoot, "awg0", restart, files).files
  {
    LegacyProfileAliasesConf("awg0");
    DeleteActsIffMarker(Legacy, isRoot, "awg0", restart, files);
    DeleteWrites(Legacy, isRoot, "awg0", restart, files);
  }

  /** listUsers in the current revision fails as soon as a listed user has no profile. */
  lemma {:induction false} ListNeedsProfiles(c: Config, isRoot: bool, files: map<string, string>)
    requires ListSpec(Current(c), isRoot, files).Ok?
    ensures ConfPath(Current(c)) in files
    ensures var names := ListedNames(files[ConfPath(Current(c))]);
      forall j :: 0 <= j < |names| ==> ProfilePath(Current(c), names[j]) in files
  {
    var r := Current(c);
    EnvironmentPasses(r, isRoot, files.Keys);
    var conf := files[ConfPath(r)];
    EntriesNeedProfiles(r, conf, files, ListedNames(conf));
  }

  lemma {:induction false} EntriesNeedProfiles(r: Revision, conf: string, files: map<string, string>, names: seq<string>)
    requires r.Current? && Entries(r, conf, files, names).Ok?
    ensures forall j :: 0 <= j < |names| ==> ProfilePath(r, names[j]) in files
  {
    if names != [] {
      EntriesNeedProfiles(r, conf, files, names[1..]);
      EntryNeedsProfile(r, conf, files, names[0]);
      forall j | 0 < j < |names| ensures names[j] == names[1..][j - 1] {
      }
    }
  }

  /** Under the current revision an entry exists only when its profile file does. */
  lemma {:induction false} EntryNeedsProfile(r: Revision, conf: string, files: map<string, string>, name: string)
    requires r.Current? && EntryFor(r, conf, files, name).Ok?
    ensures ProfilePath(r, name) in files
  {
  }

  /**
   * The entry listUsers reports for `name`: its address, its profile path and
   * whether the profile exists; the current revision also carries the
   * profile's text, the older one none.
   */
  predicate ListedEntry(r: Revision, conf: string, files: map<string, string>, name: string, e: UserEntry)
  {
    var path := ProfilePath(r, name);
    e.username == name && e.ip == IpOf(conf, name) && e.configFile == path
    && e.hasConfig == (path in files)
    && (r.Current? ==> e.hasConfig && e.config == Some(files[path]))
    && (r.Legacy? ==> e.config == None)
  }

  /** A successful listing has one entry per captured name, in order, each as ListedEntry describes. */
  lemma {:induction false} EntriesMatchNames(r: Revision, conf: string, files: map<string, string>, names: seq<string>)
    requires Entries(r, conf, files, names).Ok?
    ensures var es := Entries(r, conf, files, names).value;
      |es| == |names| && forall j :: 0 <= j < |names| ==> ListedEntry(r, conf, files, names[j], es[j])
  {
    if names != [] {
      EntriesMatchNames(r, conf, files, names[1..]);
      var es := Entries(r, conf, files, names).value;
      var rest := Entries(r, conf, files, names[1..]).value;
      assert es == [EntryFor(r, conf, files, names[0]).value] + rest;
      EntryForListed(r, conf, files, names[0]);
      forall j | 0 <= j < |names| ensures ListedEntry(r, conf, files, names[j], es[j]) {
        if j > 0 {
          ListedAt(r, conf, files, names, es, names[1..], rest, j);
        }
      }
    }
  }

  /** Entry `j` of a list is entry `j - 1` of its tail. */
  lemma {:induction false} ListedAt(r: Revision, conf: string, files: map<string, string>, names: seq<string>,
                                    es: seq<UserEntry>, names': seq<string>, es': seq<UserEntry>, j: nat)
    requires 0 < j < |names| == |es| && names' == names[1..] && es' == es[1..]
    requires ListedEntry(r, conf, files, names'[j - 1], es'[j - 1])
    ensures ListedEntry(r, conf, files, names[j], es[j])
  {
    assert names[j] == names'[j - 1] && es[j] == es'[j - 1];
  }

  /** The entry built for one name is the one ListedEntry describes. */
  lemma {:induction false} EntryForListed(r: Revision, conf: string, files: map<string, string>, name: string)
    requires EntryFor(r, conf, files, name).Ok?
    ensures ListedEntry(r, conf, files, name, EntryFor(r, conf, files, name).value)
  {
  }
}
