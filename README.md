# AmneziaWG peer registry in Dafny

This project models the peer registry of an AmneziaWG API server. The registry keeps every VPN client as a six-line block appended to the server's interface configuration text. Each user also gets a client profile file. The repository holds two revisions of the same registry, and both are modelled:

- `src/WGUserManager.js`, the current revision. It takes its names from a configuration record, keeps profiles under a keys directory, restarts the interface with `awg-quick down` / `awg-quick up`, and reads each profile back when listing.
- `WGUserManager.js`, the older revision at the top of the repository. It uses constant file names (`awg0.conf`, `serverip.cfg`, `./vpn_params.cfg`, ...), keeps profiles in the working directory and never restarts anything.

A `Revision` value (`Legacy` or `Current(config)`) chooses between them. Everything the two share is modelled once.

The host is a map from path to file contents, plus the ordered list of actions performed: file writes, appends and removals, and commands run. Each operation (`addUser`, `deleteUser`, `listUsers`) is specified by a function. That function gives the result, the files afterwards and the actions, in order. The class `Registry.Host` holds the files and the action log. Its methods follow the source step by step, including the `exec` loops and the `skipLines` loop, and are proved to agree with the specification functions.

Modules:

- `Text`: `includes`, `split("\n")`, `join("\n")`, `trim()`, and `FindFrom`, the first occurrence of a literal at or after a position, which is where the `listUsers` regular expressions start their matches.
- `Numbers`: decimal printing and `parseInt` of digit strings.
- `Scanner`: a global regular expression made of a literal prefix and a greedy character-class group, run with `exec`.
- `Peers`: the marker `# Peer configuration for <u>` and the peer block.
- `Names`: the username check.
- `Allocator`: the next client address.
- `Deletion`: the line filter.
- `Listing`: the address `listUsers` reports.
- `Profile`: the client profile, and `serverip.cfg` in the older revision.
- `Settings`: the paths and the environment check.
- `Registry`: the operations and the `Host` class.
- `Scenarios`: properties of operations run one after another.

The model follows what the code does, including where that differs from what its comments or the block layout suggest:

- the delete filter sets its counter to six after each marker line (src/WGUserManager.js:224), although the comment on that line speaks of five lines and a block has only four lines after its marker;
- the server configuration is rewritten in place with `writeFileSync` (src/WGUserManager.js:236-239), with no temporary file and rename;
- `getNextClientIP` has no upper bound (src/WGUserManager.js:106-111): the octet after `.255` is `.256`;
- the next address is one more than the largest present, so a deleted peer's address is offered again.

## Model

| member | source | states |
|---|---|---|
| Text.FindFrom | src/WGUserManager.js:264-268 | An index found is at or after the start, and the pattern occurs there. |
| Text.FindFromLeftmost | src/WGUserManager.js:264-268 | The pattern occurs nowhere between the start and the index found; when none is found it occurs nowhere after the start. |
| Text.FindFromFirst | src/WGUserManager.js:264-268 | When the pattern first occurs at `j`, the search from the beginning finds `j`. |
| Text.JoinSplit | src/WGUserManager.js:218-239 | Joining the split lines of a text with newlines gives the text back exactly. |
| Text.SplitJoin | src/WGUserManager.js:119-128 | Splitting a newline join of one-line elements gives the elements back. |
| Text.SplitAround | src/WGUserManager.js:128 | The lines of `a + "\n" + b` are the lines of `a` followed by the lines of `b`. |
| Text.ContainsJoin | src/WGUserManager.js:213-223 | For a pattern without a newline, the joined text contains it exactly when some element does. |
| Text.TrimIdempotent | WGUserManager.js:118-122 | Trimming twice is trimming once, and the trimmed text is a piece of the original. |
| Numbers.ParseShow | src/WGUserManager.js:103-111 | `parseInt` of the decimal printing of an octet gives the octet back. |
| Numbers.ShowNatInjective | src/WGUserManager.js:111 | Different octets print differently. |
| Scanner.ScanFromCaptures | src/WGUserManager.js:259-263 | Every group `exec` captures is a non-empty run of the group's class. |
| Scanner.ScanOccurs | src/WGUserManager.js:259-263 | Every capture occurs in the text right after the literal prefix. |
| Scanner.ScanConcat | src/WGUserManager.js:259-263 | The captures in a concatenation are those of each part, when the second part starts with a character that can neither start the prefix nor extend a run. |
| Peers.BlockAtMarker | src/WGUserManager.js:119-126 | The block is a newline, the user's marker, a newline, then the rest of the fields. |
| Peers.BlockAtAddress | src/WGUserManager.js:119-126 | The block is the first five fields joined by newlines, then a newline and the address line `AllowedIPs = <ip>/32` last, with no newline after it. |
| Peers.SplitAfterAppend | src/WGUserManager.js:114-129 | Appending a block leaves the old lines in front, unchanged, and adds the block's five non-empty lines, with no trailing newline. |
| Peers.ListedNamesAfterAppend | src/WGUserManager.js:259-263 | After a block for a valid name is appended, the names `listUsers` captures are the old ones followed by that name. |
| Peers.NoMarkerAfterMarker | src/WGUserManager.js:119-126 | The lines of a block after its marker hold no marker, whatever the keys and address. |
| Names.ValidateUsername | src/WGUserManager.js:52-72 | The check passes exactly when the name matches `^[a-zA-Z0-9_]+$` and its marker is not a substring of the configuration. It fails with "required" exactly when the name is empty, and with "invalid" exactly when it is non-empty with another character. The older revision (WGUserManager.js:36-53) has the same rules. |
| Names.ExtendedNameBlocks | src/WGUserManager.js:69-71 | If the marker of any extension of a valid name is present, such as `john2` for `john`, adding the name fails as existing. |
| Names.John2BlocksJohn | src/WGUserManager.js:69-71 | An existing `john2` blocks adding `john`. |
| Names.ListedNameRejected | src/WGUserManager.js:69-71 | Adding any name `listUsers` reports fails as existing. |
| Names.AcceptedNameUnlisted | WGUserManager.js:36-53 | A name the check accepts is not among the listed names. |
| Names.PunctuationRejected | src/WGUserManager.js:58-62 | Names with a space or `!` are refused as invalid. An underscore is allowed, and only the duplicate check can refuse `john_2`. |
| Allocator.CollectOctets | src/WGUserManager.js:98-104 | The `exec` loop pushes `parseInt` of every `AllowedIPs = 192.168.200.<digits>` match, in text order. |
| Allocator.NextClientIP | src/WGUserManager.js:93-112 | The address returned is the base followed by the next octet of the configuration; the older revision (WGUserManager.js:77-93) uses the fixed base `192.168.200.`. |
| Allocator.NextOctet | src/WGUserManager.js:106-111 | The next octet is 2 when no octet is present; otherwise it exceeds every octet present and is one more than one of them. |
| Allocator.Max | src/WGUserManager.js:110 | The maximum is one of the octets and no octet exceeds it. |
| Allocator.FirstAddressIsTwo | src/WGUserManager.js:106-108 | A configuration with no address match gets the base followed by `2`. |
| Allocator.OctetsAfterAppend | src/WGUserManager.js:119-128 | Appending a block whose address is `192.168.200.<n>` adds exactly `n` to the octets found. |
| Allocator.SuccessiveAllocations | WGUserManager.js:77-110 | After an address is allocated and its block appended, the next address has the octet after it. |
| Allocator.NoUpperBound | src/WGUserManager.js:110-111 | After `.255` is allocated, the next address offered is `.256`: nothing bounds the octet. |
| Allocator.OtherBaseRepeatsTwo | src/WGUserManager.js:98-107 | With any configured base of digits and dots (an IPv4 prefix, as the `/32` masks assume) that does not start with `192.168.200.`, a configuration with no address match is offered the base followed by `2`, and after that block is appended it still has no match and is offered the same address again, so every add gets it. |
| Deletion.FilterLines | src/WGUserManager.js:218-234 | The `skipLines` loop keeps exactly the lines that are neither a marker line nor within six lines after one, in order. The loop is the same in both revisions. |
| Deletion.DroppedByCounter | WGUserManager.js:186-195 | A line is dropped exactly when it holds the marker or the counter is still positive on reaching it. |
| Deletion.CounterWindow | src/WGUserManager.js:224-230 | The counter at a line is what remains of the six-line window of the nearest marker line before it; a later marker restarts the window. |
| Deletion.FilterIsReference | src/WGUserManager.js:218-234 | The counter-driven filter `Filter`, which models the `skipLines` loop, equals the reference definition of the lines kept. |
| Deletion.FilterWithoutMarker | src/WGUserManager.js:222-234 | Lines without the marker all survive once the window has run out. |
| Deletion.DeleteDropsSomeLine | src/WGUserManager.js:213-223 | The whole-text marker check agrees with the line-by-line check, and when the marker is present the rewrite has fewer lines. |
| Deletion.DeletedText | src/WGUserManager.js:218-238 | After the rewrite, the marker of a name without a newline is no longer a substring of the configuration. |
| Deletion.DeleteWithoutMarker | src/WGUserManager.js:218-239 | Without the marker, splitting, filtering and joining give the text back. |
| Deletion.DeleteLastRestores | src/WGUserManager.js:218-239 | Deleting the peer whose block was appended last gives back the text as it was before the append. |
| Deletion.TwoBlocksFiltered | src/WGUserManager.js:222-234 | Over two consecutive blocks, the filter for the first keeps only the second block's last three lines. |
| Deletion.DeleteSwallowsNextHeader | src/WGUserManager.js:224 | Deleting a peer that another block follows also removes that block's marker and `[Peer]` lines, leaving its key and address lines behind. |
| Deletion.DeleteForgetsNextPeer | src/WGUserManager.js:224 | After such a delete, the following peer is no longer listed either. |
| Listing.FindField | src/WGUserManager.js:264-268 | A position found is at or after the start, and there `AllowedIPs = ` is followed by a character other than `/`. |
| Listing.FieldLeftmost | src/WGUserManager.js:264-268 | No such position lies between the start and the one found, so the search stops where the lazy `[\s\S]*?` stops; when none is found there is none after the start. |
| Listing.IpOf | src/WGUserManager.js:264-269 | A user whose marker is absent is reported as `Unknown`; any other address reported is a non-empty run without `/` that follows `AllowedIPs = ` in the text. |
| Listing.IpOfFirstField | src/WGUserManager.js:264-269 | Given the first occurrence of the user's marker and the first `AllowedIPs = ` followed by a character other than `/` after it, the address reported is the whole run of non-`/` characters after that tag: non-empty, and ended by `/` or the end of the text. The older revision (WGUserManager.js:222-227) runs the same expression. |
| Listing.IpOfNoField | src/WGUserManager.js:264-269 | When no such field follows the first occurrence of the user's marker, the address reported is `Unknown`. |
| Listing.IpAfterAppend | src/WGUserManager.js:264-269 | After a user's block is appended to a text without that user's marker, listing reports the address in the block. |
| Listing.NoMarkerNoNames | src/WGUserManager.js:259-262 | A text without any marker lists nobody. |
| Profile.EndpointOf | src/WGUserManager.js:149 | The endpoint is the host, a colon, then the decimal digits of the port, which parse back to the port. |
| Profile.ProfileShape | src/WGUserManager.js:138-151 | The profile's first three lines are the interface header, the private key and the address with `/32`, and its last line routes all traffic, even with multi-line VPN parameters. |
| Profile.ProfileLines | src/WGUserManager.js:138-151 | With one-line values, the profile's lines are exactly the twelve template elements. |
| Profile.ReadServerIpRoundTrip | WGUserManager.js:118-121 | A file of three trimmed lines, followed by anything, reads back as host, DNS and port. |
| Profile.ReadServerIpShort | WGUserManager.js:118-121 | A file of one or two lines makes the read fail. |
| Profile.ReadServerIp | WGUserManager.js:118-121 | The read succeeds exactly when the file has at least three lines, fails with the incomplete-file error otherwise, and the values read never carry surrounding whitespace. |
| Profile.RenderProfile | src/WGUserManager.js:138-151 | The profile opens with the `[Interface]` line and ends with the line that routes all traffic, whatever the values. |
| Settings.GetConfigName | src/WGUserManager.js:11-13 | The file name is the interface name followed by `.conf`, so the name can be recovered from it. |
| Settings.ConfigNameInjective | src/WGUserManager.js:11-13 | Different names get different `.conf` file names. |
| Settings.RequiredFiles | WGUserManager.js:21-26 | The required files include the server configuration and the public key file; the older revision also requires the VPN parameters and `serverip.cfg`. |
| Settings.FirstMissing | WGUserManager.js:28-33 | The path reported is the first required one that is missing; none is reported exactly when all are present. |
| Settings.ValidateEnvironment | src/WGUserManager.js:34-50 | The method stops on a non-root user, then on the first missing required file, and otherwise passes; in the older revision it checks four files. |
| Settings.EnvironmentPasses | src/WGUserManager.js:34-50 | The check passes exactly when running as root with every required file present. |
| Settings.LegacyProfileAliasesConf | WGUserManager.js:124-141 | In the older revision a user's profile path is the server configuration exactly when the user is `awg0`. |
| Settings.CurrentProfileApart | src/WGUserManager.js:182-185 | In the current revision, when the interface name has no `/`, no profile path is the server configuration. |
| Settings.ProfilePathInjective | src/WGUserManager.js:182-185 | Different users have different profile paths. |
| Registry.AddSpec | src/WGUserManager.js:156-204 | Every add failure other than a failed restart leaves the files untouched, with no action taken. |
| Registry.DeleteSpec | src/WGUserManager.js:206-250 | A delete succeeds only when the environment passes and the marker is a substring of the configuration; every failure other than a failed restart leaves the files untouched, with no action taken. |
| Registry.Entries | src/WGUserManager.js:262-281 | A successful build has exactly one entry per name. |
| Registry.ListSpec | src/WGUserManager.js:252-285 | A successful listing passed the environment check and has exactly as many entries as names captured from the configuration. |
| Registry.Host.Restart | src/WGUserManager.js:15-25 | `down` runs first and `up` only after `down` succeeded; the first failure is returned. |
| Registry.Host.AddUser | src/WGUserManager.js:156-204 | The result, the new files and the actions are exactly those of the add specification, in either revision; the older one returns the profile's file name. |
| Registry.Host.InstallUser | src/WGUserManager.js:180-196 | The profile is written, the block appended, then the restart runs. |
| Registry.Host.DeleteUser | WGUserManager.js:173-210 | The result, the new files and the actions are exactly those of the delete specification, in either revision; only the current one restarts. |
| Registry.Host.RemoveUser | src/WGUserManager.js:217-249 | The filtered text is written, the profile is removed if it exists, then the restart runs. |
| Registry.Host.ListUsers | WGUserManager.js:212-238 | The `exec` loop returns the list specification: one entry per captured name, in order, or the first failure. In the older revision `hasConfig` is whether the profile exists; the current one reads the profile. |
| Scenarios.RestartOrder | src/WGUserManager.js:15-25 | The restart always runs `down` first, runs `up` exactly when `down` succeeded, and succeeds only when both do. |
| Scenarios.AddSucceedsIff | src/WGUserManager.js:156-204 | An add succeeds exactly when the environment, the name, the keys and the profile inputs are all fine and, in the current revision, the restart succeeds. |
| Scenarios.AddActed | src/WGUserManager.js:156-191 | An add that does anything passed every check and installs the rendered profile. |
| Scenarios.InstallWrites | src/WGUserManager.js:180-196 | The profile is written first, the block is appended second, and `down` runs third; no other file changes, and the profile is the only new file. |
| Scenarios.AddWrites | src/WGUserManager.js:180-196 | Once an add acts, it writes the profile, appends the block with the next address, and then, in the current revision, restarts. The old text stays as the prefix, and every other file is unchanged. |
| Scenarios.LegacyAwg0Overwrites | WGUserManager.js:141-165 | In the older revision adding `awg0` overwrites the server configuration with the profile and appends the block to that profile. |
| Scenarios.AddedEntryFacts | src/WGUserManager.js:197-203 | The returned entry has the user, the allocated address, the profile path, the profile as written and `hasConfig` set. |
| Scenarios.AddedProfileShape | src/WGUserManager.js:131-187 | The profile written, which `ProfileFor` renders as `generateClientConfig` does in either revision, gives the allocated address with `/32` on its third line and routes all traffic on its last line. |
| Scenarios.AppendedPeerText | src/WGUserManager.js:114-129 | After a block is appended, the marker is present, deleting gives the old text back, listing reports the address, and the user is the last name listed. |
| Scenarios.AddedFiles | src/WGUserManager.js:180-204 | A successful add leaves the files with the profile written and the block appended, and the environment check still passes. |
| Scenarios.AddThenDeleteRestores | src/WGUserManager.js:156-250 | Adding a new user with base64 keys and then deleting them gives back exactly the original files: the configuration text is restored and the profile is gone. |
| Scenarios.AddressReissued | src/WGUserManager.js:93-112 | After an add and a delete, the next address offered is the one the deleted user had. |
| Scenarios.AddThenList | src/WGUserManager.js:252-285 | Listing right after the first user is added to a peerless configuration gives exactly that user, with the allocated address and the profile. |
| Scenarios.ListOneName | src/WGUserManager.js:259-281 | A configuration whose only captured name is `u` lists exactly `u`'s entry. |
| Scenarios.DeleteActsIffMarker | src/WGUserManager.js:206-215 | A delete acts exactly when the environment passes and the marker is a substring; the name itself is not validated. Every failure other than a failed restart changes nothing. |
| Scenarios.DeleteWrites | src/WGUserManager.js:236-245 | Once a delete acts, it writes the filtered text first and removes the profile. Every other file is unchanged. |
| Scenarios.LegacyDeleteAwg0 | WGUserManager.js:200-206 | In the older revision deleting `awg0` removes the server configuration itself. |
| Scenarios.ListNeedsProfiles | src/WGUserManager.js:270-280 | A successful listing in the current revision implies every listed user's profile exists. |
| Scenarios.EntriesMatchNames | src/WGUserManager.js:262-281 | A successful listing has one entry per captured name, in order, each built by `EntryFor` as the loop body does, with the reported address and profile path; `hasConfig` is whether the profile exists, the current revision carries the profile's text and always has it, and the older one (WGUserManager.js:221-233) carries no text. |

## Left out

- Key generation (`awg genkey`, `awg pubkey`, `awg genpsk`) is a `KeyOutcome` parameter. It holds three arbitrary key strings or a failure message, and the public key is not derived from the private key.
- The restart is a `RestartOutcome` parameter. The commands run are recorded as actions; what they do to the interface is not modelled.
- The root check and `process.exit(1)` in the environment check become a boolean parameter and a failure result. Logging to the console is left out throughout.
- `existsSync` is membership in the file map. Directories, permissions and `mkdirSync` of the keys directory are not modelled.
- `path.join` is modelled as the keys directory, `/`, then the file name, without path normalisation.
- The configuration module the current revision imports is taken as a `Config` parameter. The `config.js` in the repository has no default export and no `SERVER_INTERFACE_NAME`, so that revision would not load those values as written.
- `parseInt` and `Math.max` work on unbounded naturals. The loss of precision of JavaScript numbers above 2^53, and the argument-count limit of `Math.max(...ips)`, are not modelled.
- Strings are sequences of characters, not UTF-16 code units, so surrogate pairs are not modelled. `trim()` removes the whitespace and line terminators of ECMAScript as a fixed list of characters.
- Concurrent calls, crashes between writes and partial writes are not modelled. The operations are sequential steps on one file map.
- The command-line entry point of the older revision (`WGUserManager.js:240-249`) is not part of this model, and neither are the HTTP server, the router, certificate generation and the initialisation scripts.
- Listing.IpOf: the address is proved to be the run after the first field that follows the first occurrence of the user's marker (Listing.IpOfFirstField, Listing.IpOfNoField). That this is what the regular expression's leftmost-match rule selects is argued in the function's comment, not proved: the model has no general regular-expression engine to compare against.
- Scenarios.AddThenDeleteRestores: the round trip is proved for base64 keys and an address base of digits and dots, which is what the key tools and the configuration produce. With other text the marker window can cover different lines.
