# DeployCP in Dafny

DeployCP is a hosting control panel written in Go. This project models the parts of it that decide
something — two ends of a file-transfer protocol, archive readers and writers over a file system with
symbolic links, stateful services that run for months, number allocators, and the text and arithmetic
kernels under them — and proves properties over every input, every run and every schedule.

Where the Go code changes state step by step, the model has a class or a method with the same steps
(`ReceiverProcess`, `SenderProcess`, `Extractor`, `TarWriter`, `Restorer`, `PanelRateLimiter`,
`PlatformAlerts`, `FirewallService`, `RedisConnections`, `AppRegistry`, `SplitShellCommand`, `BuildToken`,
`DownsampleHistory`, `UnitOf`). Each such method is proved equal to a specification function, and the
lemmas are about that function.

## What is modelled

**Legacy SCP** (`Scp*.dfy`). The receiver is a byte-fed automaton (`ScpReceiver`) whose stack stands for
the recursion of `receiveSCPEntries`; `ScpProcess` is the recursive, buffered reader of the source, proved
equal to it byte for byte, errors included. The sender's messages are a function of the tree
(`ScpSender`), and `ScpSenderProcess` writes them and reads one reply after each. `ScpLockstep` joins both
by two byte queues. Every interleaving keeps the queues in one of five shapes, nobody waits for ever, and
every run is finite. `ScpTransfer` is the promise: under every schedule the tree arrives with names,
contents, permission bits and (with `-p`) times, and every other path is as it was, apart from the times
of the directory it arrives in. `ScpConfinement` and `ScpHeaders` say what a receiver does with bytes that no
honest sender wrote: what it can change, and what it refuses.

**Command line and paths** (`ShellWords`, `Paths`, `VirtualPaths`). The tokenizer is compared with a
grammar of quoted pieces, in both directions. Go's `path.Clean` is a fold over components, and the path
virtualiser is characterised component by component.

**Archives** (`FileSystem`, `Archive*`, `Backup*`). The file system maps
component sequences to directories, files and symbolic links; every call resolves its path as the kernel
does, with 40 links at most, and `filepath.EvalSymlinks` with 255. The file manager's extractors never
change anything outside the real destination, and `ArchiveContents` says what they leave inside it, over whole
archives. A backup restored over a home, empty or not, puts
the saved tree there without the excluded entries and leaves the rest alone, and its metadata files come
back whatever order the map yielded them in.

**Services over whole runs** (`RateLimiter`, `Alerts`, `Firewall*`). The limiter is compared with one that
never evicts; the alert table with the history of health checks. The firewall's guard and iptables read a
rule independently of one another: what iptables matches is an arbitrary function of the host, and the
loss of the operator's own SSH access is characterised exactly, request by request, before any agreement
between the two is assumed. `FirewallMeaning` says what a rule does to any packet.

**Allocators** (`RedisAllocator`, `PortBindings`). Two uniqueness invariants over creations, updates and
deletions.

**Kernels** (`Literals`, `ServiceNames`, `History`, `ByteUnits`). Escaping against the lexers that read it
back, canonical service names, downsampling over the reals, and the unit loop within 64 bits.

## What turned out not to hold

Each of these is a lemma with a concrete input, beside the exact condition under which the code does hold.

- The path that the SFTP and SCP front ends compute is not stable: `/u/u/x` with home `/u` becomes `/u/x`,
  and `/u/x` becomes `/x`. It is stable exactly when it does not lie at or below home again
  (`ReportedPathIsStableIff`, `ReportedPathMoves`).
- The firewall's guard does not see every rule that touches SSH. A range that is open at one end, such as
  `:1024`, includes no port for the guard and ports 0 to 1024 for iptables, so a deny rule for it is let
  through and blocks SSH (`OpenRangeDenyLosesSsh`; names such as `ssh`: `NameIncludesNothing`). An accepted
  deny rule blocks SSH exactly when iptables matches what the guard does not (`DenyBlocksSshIff`).
- Deleting or replacing a *disabled* rule removes its enabled twin from the chain, and the guard looks at
  enabled rules only (`DisabledTwinLosesSsh`, `RenamingDisabledTwinLosesSsh`). The exact conditions are
  `DeleteLosesSshIff` and `ReplaceDisabledLosesSshIff`.
- With several SSH ports the guard accepts any of them, so a replacement can close the port in use
  (`PortInUseCanBeLost`); `ReplaceSafeIff` gives the exact condition for every port.
- In less than a minute the limiter can admit more than its limit exactly when a window that still has room
  ends in that time (`AtMostTheLimitIff`). A minute with both its ends admits up to twice the limit, without
  its last instant one less, and both are reached for every limit (`TwiceIsReached`, `HalfOpenIsReached`).
- Eviction stays invisible while the clock falls back by at most a minute and a nanosecond, and shows for
  every larger step back (`EvictionIsInvisible`, `FurtherBackShows`).
- A backup leaves out every entry of `.deploycp/deploy` whose name begins with `id_deploy`, not only the
  key of that name, because the exclusion is a prefix test (`ExcludedExactly`).
- A Redis password with a newline or a NUL does not survive the configuration file (`RedisRoundTrip`), nor a
  NUL a PostgreSQL literal, and a quote that directly follows a SQL literal would be read as part of it
  (`MariaDBRoundTrip`, `PostgresRoundTrip`).
- A backup that begins with a link does not restore into a root that does not exist yet, although the link
  passes its check, because only directories and files make the directories they need
  (`FirstLinkNeedsTheRoot`, `IntoMissingRoot`). When the root is spelled through links, names that begin
  with two dots are refused (`NewEntryWithinIff`).
- A restored directory or file can land outside a home that already holds links leading out
  (`DanglingLinkStrays`, `LinkedParentStrays`); `EntryConfinedIff` says exactly when.
- The rule table and the chain drift apart: renaming the SSH rule is an edit of the same effect, so the
  chain keeps the entry under the old name (`RenamedRuleIsUnbacked`). `BackedIff` gives every request that
  leaves an enabled row without its entry.

## Model

| member | source | states |
|---|---|---|
| ScpTransfer.Transfer | internal/restrictedtransfer/transfer.go:778-1014 | every finished run of sender and receiver, under any interleaving, ends without error, with both queues drained and every message acknowledged; each path at or below the target holds the sent node with its kind, permissions, content and with -p its whole-second times; every other path is unchanged, except for the times of the directory that receives the target |
| ScpTransfer.RoundTrip | internal/restrictedtransfer/transfer.go:791-1014 | the receiver fed everything the sender writes succeeds, answers one acknowledgement per message plus one, and stores the tree, for directory and plain targets |
| ScpTransfer.ProcessesAgree | internal/restrictedtransfer/transfer.go:753-1014 | the acknowledgements the receiver writes for the sender's bytes are exactly those that make the sender write these bytes and finish without a byte left over |
| ScpLockstep.Lockstep | internal/restrictedtransfer/transfer.go:753-1014 | in every reachable state, for every tree and also on refusals, at most one reply is unread and then no message byte is; the two sides never both wait; an unfinished system can always step; no run is longer than a measure of the start state |
| ScpLockstep.StepInv | internal/restrictedtransfer/transfer.go:753-1014 | every single step of either side keeps the shape of the two queues and the history of what was exchanged |
| ScpLockstep.StepTerminates | internal/restrictedtransfer/transfer.go:791-1014 | every step lowers the measure built from the bytes still to write, to read and to answer |
| ScpLockstep.FinishedOutcome | internal/restrictedtransfer/transfer.go:753-1014 | a finished run has the outcome of feeding the whole script to the receiver at once |
| ScpPacing.PacedTree | internal/restrictedtransfer/transfer.go:791-1014 | whatever the tree, flags and store: the receiver answers each message with exactly one reply, at its last byte and not before, or stops with one error reply |
| ScpRoundTrip.FeedTree | internal/restrictedtransfer/transfer.go:791-1014 | one tree fed to a receiver at any depth leaves it where it was, with the tree stored and one acknowledgement per message |
| ScpRoundTrip.FeedList | internal/restrictedtransfer/transfer.go:815-1014 | the children of a directory, one after the other, are all stored below the current target |
| ScpRoundTrip.FeedEnd | internal/restrictedtransfer/transfer.go:894-977 | the end message closes the directory of the innermost caller and only then sets its permissions and pending times |
| ScpOverlay.OverlayTree | internal/restrictedtransfer/transfer.go:953-1013 | what receiving a tree means path by path: its nodes carry what was sent, all else is untouched, and without clashes nothing is refused |
| ScpSender.ParseSentHeader | internal/restrictedtransfer/transfer.go:791-957 | the receiver's parser reads back kind, four-digit octal mode, size and name of every header the sender prints |
| ScpSender.ParseSentTimes | internal/restrictedtransfer/transfer.go:796-919 | the times line is read back, for every 64-bit modification time, negative ones included |
| ScpProcess.ReceiverProcess.Receive | internal/restrictedtransfer/transfer.go:860-880 | for every input, store and target: result, store and output of the recursive receiver equal those of the automaton; a required directory that is missing is refused; and nothing has changed but at the target, below it, or on the way to a target that was missing |
| ScpProcess.ReceiverProcess.ReceiveEntries | internal/restrictedtransfer/transfer.go:882-1014 | the receive loop consumes the input and changes the store as the automaton does from the same state, and hands back to its caller what is unread |
| ScpProcess.ReceiverProcess.ReceiveEntry | internal/restrictedtransfer/transfer.go:953-1012 | a file or directory entry, with the recursive call for directories, as the automaton's entry transition |
| ScpProcess.ReceiverProcess.ReceiveFile | internal/restrictedtransfer/transfer.go:979-1012 | the announced number of bytes is stored, the terminator must be a zero byte, attributes follow, and every early end is an error |
| ScpConfinement.ReceiverConfined | internal/restrictedtransfer/transfer.go:882-1014 | whatever bytes arrive and whatever the store holds: nothing is removed, and every path that changes is the target, or lies below it behind components that are non-empty, not "." or ".." and free of slash, backslash, carriage return and line feed, or leads to a target that was missing |
| ScpConfinement.OutsideIsKept | internal/restrictedtransfer/transfer.go:953-979 | beside a target that is there nothing outside it changes; beside a missing one whose parent is there, at most the times of that parent |
| ScpConfinement.NameIsPlain | internal/restrictedtransfer/transfer.go:947-952 | the names that are accepted are exactly those, character by character |
| ScpHeaders.HeaderVerdict | internal/restrictedtransfer/transfer.go:928-968 | for every "C" or "D" line of three fields: which of mode, size, name and missing -r is answered by which one error, the store as it was, and else the entry begins with the low nine bits of the mode, the size and the name |
| ScpHeaders.LineRefused | internal/restrictedtransfer/transfer.go:904-933 | headers of fewer fields and unknown commands get one error reply; a peer's error line ends the transfer without one |
| ScpHeaders.BadNameChangesNothing | internal/restrictedtransfer/transfer.go:947-952 | a stream that begins with a badly named entry, whatever follows, leaves the store as it was and is answered by the first acknowledgement and one error |
| ScpHeaders.TimesInOrder | internal/restrictedtransfer/transfer.go:906-919 | the four numbers of a times line, for all 64-bit values, are modification time, its microseconds, access time, its microseconds |
| ScpHeaders.FileArrives | internal/restrictedtransfer/transfer.go:906-1009 | a times line, a header and the bytes of a file become a node with that content, mode and these four times; four acknowledgements; no other node but the directory changes |
| ScpHeaders.NothingArrives | internal/restrictedtransfer/transfer.go:887-893 | a stream without a whole line is an error and stores nothing |
| ScpHeaders.FileCutShort | internal/restrictedtransfer/transfer.go:979-1000 | a file cut short, or without its zero byte, is an error without acknowledgement; what arrived stays, without mode and times |
| ScpSenderProcess.SenderProcess.Send | internal/restrictedtransfer/transfer.go:778-789 | writes nothing before the receiver's first acknowledgement; then what is written and which replies are left unread are those of the exchange of the tree's script |
| ScpSenderProcess.SenderProcess.SendEntry | internal/restrictedtransfer/transfer.go:791-852 | for every reply stream: bytes written, replies left and result are those of the script, stopped at the first reply that is no acknowledgement |
| ScpSenderProcess.SenderProcess.ReadAck | internal/restrictedtransfer/transfer.go:753-766 | a zero byte is success; any other code is failure and consumes its error line |
| ScpSenderProcess.TalkAcked | internal/restrictedtransfer/transfer.go:753-852 | with one acknowledgement per message the sender writes the whole script and leaves the rest of the replies |
| ScpSender.SendsIff | internal/restrictedtransfer/transfer.go:791-852 | a tree is sent to its end exactly when each of its names is on one line, and directories only with -r; a root with a bad name sends nothing |
| ShellWords.SplitShellCommand | internal/restrictedtransfer/transfer.go:630-690 | the loop computes the split of its input, errors included |
| ShellWords.SplitInvertsQuoting | internal/restrictedtransfer/transfer.go:630-690 | for every list of tokens, empty ones included, splitting the space-joined single-quoted forms gives the list |
| ShellWords.SplitMeans | internal/restrictedtransfer/transfer.go:630-690 | for every sequence of complete pieces (bare, escaped, single- and double-quoted, separators) the result is the words they mean |
| ShellWords.SplitSucceedsIff | internal/restrictedtransfer/transfer.go:630-690 | success exactly for texts that are sequences of complete pieces |
| ShellWords.SplitFailsIff | internal/restrictedtransfer/transfer.go:683-689 | failure exactly when the input ends inside a quote or after a dangling backslash |
| Paths.CleanIsNormal | internal/restrictedtransfer/transfer.go:475-478 | path.Clean is idempotent, keeps rootedness and has no empty, "." or superfluous ".." component |
| FileSystem.CleanLeads | internal/restrictedtransfer/transfer.go:475-478 | what cleaning means: where no link is followed, a path that leads anywhere leads where its cleaned form points |
| VirtualPaths.VirtualIsVirtual | internal/restrictedtransfer/transfer.go:475-478 | for every raw path the result is rooted and clean, without ".", ".." or empty components |
| VirtualPaths.ChrootIsVirtual | internal/restrictedtransfer/transfer.go:735-751 | the same for every raw path and every home directory |
| VirtualPaths.ChrootParts | internal/restrictedtransfer/transfer.go:735-751 | the exact components for every raw path and absolute home: those of the path, less those of home when they lead |
| VirtualPaths.HomeSpellings | internal/restrictedtransfer/transfer.go:735-751 | "~/s" and "home/s" both become "/s" |
| VirtualPaths.ReportedPathIsStableIff | internal/restrictedtransfer/transfer.go:735-751 | mapping a result again changes nothing exactly when it does not lie at or below a home other than "/" |
| VirtualPaths.ReportedPathMoves | internal/restrictedtransfer/transfer.go:735-751 | a concrete path that moves at each mapping |
| ArchiveExtraction.Extractor.ExtractTar | internal/handlers/elfinder_handler.go:1173-1206 | the loop's file system and result, for every archive and start: directories and links stay, and nothing outside the real path of the destination changes |
| ArchiveExtraction.Extractor.ExtractZip | internal/handlers/elfinder_handler.go:1109-1148 | the same for zip archives, where every entry that is no directory becomes a file |
| ArchiveExtraction.Extractor.SafeJoin | internal/handlers/elfinder_handler.go:1208-1220 | the accepted target or the refusal, as specified by the join and the two containment tests |
| ArchiveExtraction.Extractor.NearestExisting | internal/handlers/elfinder_handler.go:142-155 | the parent-climbing loop finds the nearest existing ancestor, or fails at the root |
| ArchiveExtraction.ClimbFinds | internal/handlers/elfinder_handler.go:142-155 | the ancestor exists and the next component below it does not |
| ArchiveExtraction.AllConfined | internal/handlers/elfinder_handler.go:1109-1220 | over whole archives and every file system with links: only paths below the real destination change, and a missing destination changes nothing |
| ArchiveExtraction.EntryConfined | internal/handlers/elfinder_handler.go:88-162 | the same for one entry, and the destination still resolves to the same place |
| ArchiveExtraction.EntryWritten | internal/handlers/elfinder_handler.go:1190-1202 | an extracted file entry can be read back under its own path, with its content, inside the real destination |
| ArchiveExtraction.WrittenInside | internal/handlers/elfinder_handler.go:1190-1202 | the place that is opened for writing resolves inside the real destination |
| ArchiveAcceptance.CleanEntryExtracted | internal/handlers/elfinder_handler.go:1173-1220 | an entry whose path meets only directories is accepted and adds exactly itself and the directories it needs |
| ArchiveContents.ArchiveDelivered | internal/handlers/elfinder_handler.go:1109-1206 | a whole archive extracted without an error, tar or zip: every file entry's own path ends inside the real destination at a file, with its content unless a later entry is written at that place, every directory entry's path at a directory; nothing is gone, and every new or other node is one of these or a directory on the way |
| ArchiveContents.CleanArchiveExtracted | internal/handlers/elfinder_handler.go:1109-1220 | a whole archive of distinct new paths, none in another's way, below an existing destination is extracted without an error, tar or zip, in any order of its entries, and adds exactly its entries and the directories they need |
| ArchiveContents.RootDestination | internal/handlers/elfinder_handler.go:1208-1215 | a destination "/" accepts no entry but one that leads to "/" itself |
| ArchiveAcceptance.TargetOfNames | internal/handlers/elfinder_handler.go:1208-1211 | slashes and backslashes before a name and one slash after it do not matter for where it leads |
| FileSystem.MkdirAllBelow | internal/handlers/elfinder_handler.go:1187-1193 | creating directories below a path that leads through links adds them at the real place of that path |
| FileSystem.ResolveGrows | internal/handlers/elfinder_handler.go:101-111 | adding to a file system never changes where an existing path leads |
| Backup.TarWriter.WriteTarGz | internal/services/platform_ops_service.go:1384-1464 | the walk's entries without the exclusions, then the extra files, or an error if an extra name is unsafe |
| Backup.TarWriter.WalkTree | internal/services/platform_ops_service.go:1399-1437 | the entries of one node and all below it, parents before children |
| Backup.Restorer.ExtractTarGzSafe | internal/services/platform_ops_service.go:1551-1621 | the restore loop's file system and result, entry by entry, errors included |
| Backup.Restorer.ExtractBackupMetadata | internal/services/platform_ops_service.go:1492-1549 | the metadata loop's file system and result |
| BackupRestore.BackupRestores | internal/services/platform_ops_service.go:389-430 | whenever the restore of a written backup over a home succeeds, each kept node of the saved tree stands in its place, contents and link targets included, and every other path is as before, the home being empty or not, its root spelled through links or not, as long as nothing of another kind stands in the way |
| BackupRestore.EmptyIsReady | internal/services/platform_ops_service.go:1551-1621 | an empty directory is ready for any tree |
| BackupRestore.BackupSucceedsIff | internal/services/platform_ops_service.go:1551-1643 | a written backup restores over such a home exactly when each entry passes its checks on what the entries before it left; nothing else in it can fail |
| BackupRestore.SuccessMeansPassed | internal/services/platform_ops_service.go:1551-1643 | any restore of any archive that succeeds has passed all its checks |
| BackupRestore.SafeBackupRestores | internal/services/platform_ops_service.go:1551-1643 | if every link is relative and climbs no higher than its own depth, and only at its start, and no name begins with two dots unless the root contains no link, writing and restoring succeed |
| BackupRestore.NewEntryWithinIff | internal/services/platform_ops_service.go:1632-1637 | exactly which new names the check accepts when the root is spelled through links |
| BackupRestore.IntoMissingRoot | internal/services/platform_ops_service.go:1551-1621 | restoring any archive into a root that does not exist: nothing happens for an empty one, the first entry fails if it is unsafe or a link, and otherwise all is as if the root had been made first |
| BackupRestore.BackupIntoMissingRootIff | internal/services/platform_ops_service.go:1551-1643 | a written backup restores into a missing root exactly when it is empty, or does not begin with a link and passes its checks once the root is made |
| BackupRestore.BackupIntoMissingRoot | internal/services/platform_ops_service.go:1551-1643 | what it then leaves: the root, the directories above it and the saved tree, nothing else |
| BackupRestore.FirstLinkNeedsTheRoot | internal/services/platform_ops_service.go:1605-1616 | one backup that restores into an existing root and fails for a missing one |
| BackupConfinement.EntryConfinedIff | internal/services/platform_ops_service.go:1575-1604 | for every home and every directory or file entry: nothing outside the root changes exactly when the nearest existing ancestor does not lead out while directories are missing below it, and no dangling link in the entry's place leads out |
| BackupConfinement.MkdirAllExactly | internal/services/platform_ops_service.go:1581-1589 | creating directories adds them below what the nearest existing ancestor leads to, or fails without a change |
| BackupConfinement.DanglingLinkStrays | internal/services/platform_ops_service.go:1585-1604 | a home with a dangling link on which a file entry is created beside the root |
| BackupConfinement.LinkedParentStrays | internal/services/platform_ops_service.go:1581-1584 | a home with a link on which a directory entry is created beside the root |
| BackupMetadata.MetadataRecovered | internal/services/platform_ops_service.go:1384-1549 | extracting the metadata of a written backup succeeds, gives exactly the extra files and touches nothing else, whatever the tree |
| BackupMetadata.OrderDoesNotMatter | internal/services/platform_ops_service.go:1439-1549 | extracting the metadata of two archives of one tree, with the same extras in different orders, succeeds for both and leaves the same file system |
| BackupMetadata.RegularEntry | internal/services/platform_ops_service.go:1492-1604 | both readers put a new file in place with the directories it needs |
| BackupRoundTrip.TreeRestored | internal/services/platform_ops_service.go:1384-1621 | one node at any place in the tree: exactly its nodes that are not excluded are put in place |
| BackupRoundTrip.ListRestored | internal/services/platform_ops_service.go:1384-1621 | the children of a directory do not disturb one another |
| BackupRoundTrip.PutEntry | internal/services/platform_ops_service.go:1551-1621 | a restored entry puts exactly its node in its place, new or replaced, and is refused exactly when a check fails |
| BackupLinks.SafeLinkPasses | internal/services/platform_ops_service.go:1605-1643 | a link that never climbs above the root passes the check while the home holds only such links |
| BackupLinks.StaysInside | internal/services/platform_ops_service.go:1623-1643 | following any chain of such links from inside the home stays inside it |
| BackupPaths.WithinRule | internal/services/platform_ops_service.go:1623-1643 | for a root spelled through links, and a path that the check carries over to where the root leads: it passes exactly if the path does not resolve, or resolves inside |
| BackupPaths.StillLeads | internal/services/platform_ops_service.go:1632-1638 | whatever changes inside the home, its root keeps leading there |
| BackupExclusions.ExcludedExactly | internal/services/platform_ops_service.go:1407-1412 | in terms of components, exactly what a backup leaves out |
| BackupRefusals.StrayingEntryRefused | internal/services/platform_ops_service.go:1509-1516 | both readers stop, with nothing changed, at a name that is rooted or that cleans to ".", ".." or something below ".." |
| BackupRefusals.StrayingNames | internal/services/platform_ops_service.go:1569-1575 | among them the empty name, ".", "..", and everything behind "/" or "../" |
| BackupRefusals.RootedLinkRefused | internal/services/platform_ops_service.go:1605-1608 | a link with a rooted target stops the restore with nothing changed |
| BackupRefusals.LinksPassedOver | internal/services/platform_ops_service.go:1509-1546 | the metadata reader makes no link, and stops at one only for its name or its place |
| BackupRefusals.UnsafeExtras | internal/services/platform_ops_service.go:1439-1449 | a backup is not written exactly when a metadata name is empty, rooted or cleans to something that begins with ".."; both readers take the names that are written, but for one that cleans to "." |
| BackupRefusals.OtherNamesSkipped | internal/services/platform_ops_service.go:1517-1519 | the metadata reader passes over every name outside its directory |
| RateLimiter.PanelRateLimiter.Allow | internal/bootstrap/app.go:580-604 | decision and map after the call, whatever order the map is walked in, and every window left began within the last two minutes |
| RateLimiter.EvictionIsInvisible | internal/bootstrap/app.go:592-603 | for every call sequence whose clock never falls more than a minute and a nanosecond behind its maximum, the decisions are those of a counter that never forgets |
| RateLimiter.FurtherBackShows | internal/bootstrap/app.go:592-603 | for every larger step back, from one nanosecond more on, a run on which the decisions differ |
| RateLimiter.TwiceTheLimit | internal/bootstrap/app.go:580-604 | with a constant limit L and a clock that does not go back, no minute within any run, both ends included, admits more than 2L requests of a key |
| RateLimiter.HalfOpenMinute | internal/bootstrap/app.go:580-604 | without its last instant, no more than 2L - 1 |
| RateLimiter.TwiceIsReached | internal/bootstrap/app.go:580-604 | for every limit and key a run that reaches 2L |
| RateLimiter.HalfOpenIsReached | internal/bootstrap/app.go:580-604 | for every limit and key a run that reaches 2L - 1 |
| RateLimiter.AtMostTheLimitIff | internal/bootstrap/app.go:580-604 | from any state whose windows have counted a request, whatever is called within less than a minute, at most L are admitted, exactly when no open window that still has room ends in it |
| RateLimiter.KeysDoNotMix | internal/bootstrap/app.go:597-603 | what is decided for a key is what would be decided if no other key were ever used |
| RateLimiter.DefaultLimit | internal/bootstrap/app.go:584-586 | every run decides as if 300 stood in the place of limits below one |
| RateLimiter.FirstWindow | internal/bootstrap/app.go:597-602 | the first request of a key opens a window of sixty seconds |
| Alerts.PlatformAlerts.SyncAlerts | internal/services/platform_ops_service.go:1160-1174 | the three checks in order leave the specified table and webhook log |
| Alerts.PlatformAlerts.OpenOrUpdateEvent | internal/repositories/repositories.go:730-744 | the first open event of the site and type is refreshed, or a new one is added and sent |
| Alerts.PlatformAlerts.ResolveEvents | internal/repositories/repositories.go:745-749 | every open event of the site and type is closed, nothing else changes |
| Alerts.AlertsFollowChecks | internal/services/platform_ops_service.go:1160-1174 | over every sequence of checks of all sites: at most one open event per site and type, open exactly when the latest check's condition holds and then with that check's text, and events created and webhooks sent equal the inactive-to-active transitions |
| Alerts.ResolvedStays | internal/repositories/repositories.go:730-749 | no later check changes a resolved event or removes any event |
| Alerts.SyncEffect | internal/services/platform_ops_service.go:1160-1174 | the effect of one check on every site and type, its own and the others |
| Alerts.LatestDecides | internal/services/platform_ops_service.go:1160-1174 | after any history the latest check of a site decides which of its three events are open, with severity, text and time in literal terms: a stopped service, a certificate expired or expiring, a disk at 85 per cent or more |
| Alerts.SyncMoves | internal/repositories/repositories.go:730-749 | the events a check adds are exactly those it sends, in order; an event it closes keeps its text and gets the time of the check; no other event changes |
| Firewall.FirewallService.Run | internal/services/firewall_service.go:598-619 | an append adds at the end, a delete removes the first equal entry or fails |
| Firewall.FirewallService.Apply | internal/services/firewall_service.go:33-56 | chain and result: refused if invalid or if it blocks the operator's SSH, nothing for a disabled rule |
| Firewall.FirewallService.DeleteOne | internal/services/firewall_service.go:58-75 | chain and result: refused if the rule allows the operator's SSH |
| Firewall.FirewallService.Replace | internal/services/firewall_service.go:77-106 | chain and result on all paths: no existing rule, same effect, apply before delete, delete before apply |
| FirewallSsh.SshIsNeverLost | internal/services/firewall_service.go:33-175 | over every run of additions, deletions and replacements of allow and deny rules that guard and iptables read alike, the old ones enabled or harmless to SSH, whichever iptables calls fail: after every request some entry accepts the operator's SSH and none drops it |
| FirewallSsh.RunSafeIff | internal/services/firewall_service.go:33-175 | for all rules on all hosts, and for each SSH port: SSH stays open after every request of a run exactly when no request meets its losing condition at its turn |
| FirewallSsh.ReplaceSafeIff | internal/services/firewall_service.go:77-106 | exactly when a replacement keeps SSH open, on every one of its paths and failures, for every host and any one of its SSH ports |
| FirewallSsh.ApplySafeIff | internal/services/firewall_service.go:33-56 | an added rule loses SSH exactly when it is appended and iptables matches it to SSH as a drop |
| FirewallSsh.DenyBlocksSshIff | internal/services/firewall_service.go:33-56 | a deny rule that is let through blocks SSH exactly when iptables matches the operator's SSH and the guard does not |
| FirewallSsh.DeleteLosesSshIff | internal/services/firewall_service.go:58-75 | a deletion loses SSH exactly when the rule is disabled or unknown to the guard and its rendering is the only entry that accepts SSH |
| FirewallSsh.ReplaceDisabledLosesSshIff | internal/services/firewall_service.go:77-106 | a replaced disabled rule loses SSH exactly when its rendering is the only entry that accepts SSH and the new rule is not added or does not, or when the new rule, added, blocks it |
| FirewallSsh.EntryMeansRule | internal/services/firewall_service.go:161-191 | for a rule that both read alike, its rendered entry matches SSH exactly when the guard says so |
| FirewallSsh.SwapKeeps | internal/services/firewall_service.go:88-98 | applying the new rule before deleting the old one leaves SSH accepted, whichever entry the deletion hits |
| FirewallPorts.PlainIsReadAlike | internal/services/firewall_service.go:680-712 | no port, "any", single ports and closed ranges in order are read alike by the guard and by iptables as documented |
| FirewallPorts.ManualIsDocumented | internal/services/firewall_service.go:598-619 | the documented reading of --dport is consistent: a parser that has it |
| FirewallPorts.RangeMeaning | internal/services/firewall_service.go:680-712 | a range in either order, with a colon or a dash, includes exactly the ports between its ends |
| FirewallPorts.SinglePortMeaning | internal/services/firewall_service.go:680-712 | a single port includes itself only |
| FirewallPorts.OpenRangeIncludesNothing | internal/services/firewall_service.go:690-711 | a range open at either end includes no port |
| FirewallPorts.NameIncludesNothing | internal/services/firewall_service.go:680-712 | a service name, or anything else that is no number and no range, includes no port |
| FirewallPorts.OpenRangeDenyLosesSsh | internal/services/firewall_service.go:33-56 | for every SSH port and every bound above it, `:1024` above 22 among them: a deny rule that is accepted and blocks SSH |
| FirewallPorts.DisabledTwinLosesSsh | internal/services/firewall_service.go:58-75 | on every host, a deletion of a disabled rule that loses SSH |
| FirewallPorts.RenamingDisabledTwinLosesSsh | internal/services/firewall_service.go:77-106 | on every host, a replacement of a disabled rule that loses SSH |
| FirewallPorts.PortInUseCanBeLost | internal/services/firewall_service.go:161-175 | with two SSH ports, a replacement after which the port in use is no longer accepted |
| FirewallRows.BackedIff | internal/handlers/settings_handler.go:862-938 | over the rule table beside the chain, for every create, edit and delete: every enabled row keeps an entry of its own exactly unless a guarded row is edited into another rendering of the same effect, a disabled row's deletion or edit takes its enabled twin's entry, or an edit deletes the old entry and fails to add the new one, with none to spare |
| FirewallRows.RenamedRuleIsUnbacked | internal/handlers/settings_handler.go:883-919 | renaming the SSH rule: the renamed row's entry is not in the chain and cannot be deleted |
| Firewall.RenderingIsInjective | internal/services/firewall_service.go:598-619 | different entries render to different argument lists |
| FirewallMeaning.ApplyMeans | internal/services/firewall_service.go:33-56 | for every host, chain and rule, in terms of the rule's texts: refused, ignored, or one entry appended that matches exactly the packets of the protocol, sources and port the texts name, and drops them exactly when the action reads deny |
| FirewallMeaning.HeadMeans | internal/services/firewall_service.go:644-665 | a protocol that begins with tcp, udp or icmp, in any case, behind white space and before anything, makes an entry for that protocol and no other |
| FirewallMeaning.GuardReads | internal/services/firewall_service.go:124-191 | which rules the guard counts as allowing or denying the operator's SSH, in terms of their texts |
| Prelude.TrimDropsBlanks | internal/services/firewall_service.go:644-678 | trimming a text drops the white space before and after it, six characters spelled out, and nothing else |
| Prelude.LowerLetters | internal/services/firewall_service.go:644-678 | the lower case of each letter, spelled out |
| FirewallMeaning.SameEffectIff | internal/services/firewall_service.go:207-216 | two rules count as the same exactly when both or neither is enabled and their entries agree up to the comment and to case and white space of port and action |
| FirewallMeaning.ArgumentsSay | internal/services/firewall_service.go:598-619 | read option by option, the command line gives each part of the entry, and no option for a part that is absent |
| RedisAllocator.RedisConnections.EnsureDbUnique | internal/services/database_service.go:856-879 | the search returns the specified number, and reports an adjustment exactly when it differs from the request |
| RedisAllocator.RedisConnections.CreateRedis | internal/services/database_service.go:127-178 | the table after a creation, on success and on every failure |
| RedisAllocator.NumbersStayUnique | internal/services/database_service.go:127-222 | over every run of creations and deletions no two connections share a number on one server: hosts equal up to case and white space, or both among "", "localhost", "::1" and "127.0.0.1" |
| RedisAllocator.AllocationFailsIff | internal/services/database_service.go:856-879 | allocation fails exactly when the request and all 4096 numbers are taken, so never while fewer are used |
| RedisAllocator.AllocationIsLeast | internal/services/database_service.go:856-879 | the number is free; a free request is kept, a clash gives the least free number |
| RedisAllocator.CreateEffect | internal/services/database_service.go:127-178 | exactly when a creation is refused, and else the one row it adds: number, host, port with its default, and the number asked for or the least free one on that server |
| RedisAllocator.LocalSpellingsClash | internal/services/database_service.go:881-887 | a number in use under one spelling of the local host is not given out under any other |
| RedisAllocator.Pigeonhole | internal/services/database_service.go:869-878 | n numbers all in use need n used numbers |
| PortBindings.AppRegistry.EnsurePortAvailable | internal/services/app_service.go:1418-1448 | true exactly when the port is valid and no other app's binding is in the way |
| PortBindings.AppRegistry.CreateApp | internal/services/app_service.go:87-152 | the table after a creation on a new row or a site's row, with the rollback |
| PortBindings.AppRegistry.UpdateApp | internal/services/app_service.go:204-253 | the table after an update, unchanged if refused |
| PortBindings.AppRegistry.UpdateRuntimeSettings | internal/services/app_service.go:476-530 | the table after a runtime update: an empty host becomes the loopback, a port that is not positive keeps the old one |
| PortBindings.UpdateRuntimeEffect | internal/services/app_service.go:476-530 | row by row: the app gets the port asked for, or keeps its own if that is not positive, the loopback if it had no host, and its runtime; no other row changes; refused, with nothing changed, exactly when the port is out of range, another app has it on a shared address, or the probe fails |
| PortBindings.UpdateEffect | internal/services/app_service.go:204-253 | the same for an update, which sets runtime ("go" for a blank one), host and port |
| PortBindings.UpdateOfNoApp | internal/services/app_service.go:204-253 | neither changes anything when no app has the number |
| PortBindings.CreateEffect | internal/services/app_service.go:87-152 | the row a creation adds, or the one without runtime that a failed start leaves, and exactly when it is refused |
| PortBindings.CreateOnSiteEffect | internal/services/app_service.go:87-152 | the same on the row of an existing site; a site that is not there changes nothing |
| PortBindings.BindingsNeverConflict | internal/services/app_service.go:1418-1485 | over every run of creations, updates, runtime changes, clearings and deletions no two apps have one port on a shared address, the addresses of a host spelled out |
| PortBindings.ConflictIffShared | internal/services/app_service.go:1454-1485 | bindings conflict exactly when some address and port would be listened on twice, "", "localhost" and "127.0.0.1" being one address and "0.0.0.0" and "::" all; symmetric, and unaffected by normalising |
| PortBindings.ConflictNotTransitive | internal/services/app_service.go:1454-1485 | two hosts that conflict with a wildcard but not with each other |
| PortBindings.AppRegistry.ClearRuntime | internal/repositories/repositories.go:529-558 | every row of that number stays but is no app any more, and no other row changes |
| Literals.TwoPassesAreOneMap | internal/services/database_service.go:1268-1286 | the two replace passes equal one map over characters |
| Literals.OrderMatters | internal/services/database_service.go:1268-1272 | the opposite order does not |
| Literals.MariaDBRoundTrip | internal/services/database_service.go:1268-1272 | the literal is read back and ends at its final quote, exactly when no quote follows |
| Literals.PostgresRoundTrip | internal/services/database_service.go:1276-1278 | the same for PostgreSQL, and the value has no NUL |
| Literals.RedisRoundTrip | internal/services/database_service.go:1282-1286 | the configuration line gives the password back exactly when it has neither a newline nor a NUL |
| ServiceNames.BuildToken | internal/services/app_service.go:1641-1662 | the builder loop computes the token of its input |
| ServiceNames.TokenIsWords | internal/services/app_service.go:1760-1781 | the token is the words of the lower-cased name joined by single dashes, or the fallback |
| ServiceNames.SlugIsCanonical | internal/services/app_service.go:1641-1662 | for every name: non-empty, over a-z, 0-9 and dashes, with no leading, trailing or doubled dash |
| ServiceNames.CanonicalIsFixed | internal/services/app_service.go:1760-1781 | canonical names are fixed points |
| ServiceNames.ServiceNameIsCanonical | internal/restrictedtransfer/transfer.go:110-124 | the slug is idempotent, the service name is a fixed point of the sudoers token, and the runtime control filter accepts it for all five actions |
| ServiceNames.ValidRequestIff | internal/restrictedtransfer/transfer.go:110-124 | the filter accepts exactly five actions on units of a-z, 0-9 and dashes behind the prefix |
| ServiceNames.NamelessFallsBack | internal/services/app_service.go:1641-1662 | a name without a letter or digit gives "platform", and "runtime" as a sudoers token |
| History.DownsampleHistory | internal/services/dashboard_service.go:449-522 | rows copied when few, else the chunk means in order |
| History.DownsamplingIsFaithful | internal/services/dashboard_service.go:449-522 | at least one and at most the wanted number of points, weighted means sum to the totals, sorted times stay sorted, the last time is kept |
| History.PointCovers | internal/services/dashboard_service.go:476-519 | point i is the mean of rows i*step up to its end: the chunks partition the rows in order |
| History.PointIsMean | internal/services/dashboard_service.go:476-519 | each of the eight fields of a point is the sum of that field over its chunk divided by its length, and its time is that of the last row |
| History.FewAreCopied | internal/services/dashboard_service.go:449-470 | few rows are the chart, each with its time and values |
| History.MeansConserveTotals | internal/services/dashboard_service.go:484-519 | means weighted by their counts sum to the original totals |
| History.EnoughPoints | internal/services/dashboard_service.go:471-474 | rounding the step up never yields more than the wanted number of points |
| ByteUnits.UnitOf | internal/services/dashboard_service.go:389-403 | for every 64-bit v of at least 1024 the divisor is 1024^(exp+1), does not overflow, div <= v < 1024*div, and the index is inside the unit letters |
| ByteUnits.NextUnit | internal/services/dashboard_service.go:395-400 | one turn keeps the divisor exact in 64-bit arithmetic and the quotient equal to v/div |
| ByteUnits.UnitIsUnique | internal/services/dashboard_service.go:389-403 | no other unit fits |
| ByteUnits.SevenUnitsOverflow | internal/services/dashboard_service.go:389-403 | a seventh unit would not fit in 64 bits |

## Assumptions behind the rows

- A transfer's receiver is a store of directories and files with permissions and times. Sizes and times
  are 64-bit, permissions nine bits. Legal names are non-empty, not `.` or `..`, without slash, backslash,
  carriage return or line feed, and distinct within a directory.
- Firewall runs are those of one operator. How the guard reads a source (`covers`, `parses`), which entries
  iptables accepts (`takes`) and what it then matches (`matchesSource`, `matchesDport`) are arbitrary
  functions. Only the lemmas that name `ReadAlike` or `Documented` assume anything about them: the first
  that guard and iptables agree on a rule, the second what the iptables manual says of decimal ports and
  ranges. All conditions marked "exactly" hold without either.
- Live port probes, provisioning and start-up steps are boolean inputs, so every mix of outcomes is
  covered. An application's input validation counts as part of that outcome.
- A rate limiter's clock is in nanoseconds, with 0 for the zero time; bounds are for times after it.
- Restores go to a home other than `/` that its root leads to without passing through it, or to a root that
  does not exist yet. The metadata directory is not left over from an earlier restore.

## Left out

- SCP: the operating system's own refusals (access rights, umask, full disks) beyond a missing or clashing path, and the wording of errors that come from Go's library.
- SCP: symbolic links in the receiver's store.
- SCP: `parseSCPServerOptions`, and white space other than blanks in a times line.
- Text is a sequence of characters; invalid UTF-8 and case folding beyond ASCII, the Kelvin sign and the dotted capital I are not part of this model.
- Archives are sequences of entries; gzip and tar byte encodings, file modes, owners and special files in backups are not modelled.
- Absolute symbolic links, which the code refuses to restore.
- BackupRestore.SafeBackupRestores: a condition on the links alone that suffices for success, not the weakest one; BackupSucceedsIff is exact but follows the restore step by step.
- Firewall back ends other than iptables, the dry-run mode, status parsing, CIDR parsing, and discovery of the SSH ports.
- FirewallSsh.SshIsNeverLost: does not cover rules that guard and iptables read differently, nor deleting or replacing a disabled rule whose rendering accepts SSH, because the code can then lose SSH; RunSafeIff covers all of them.
- RateLimiter.TwiceTheLimit: for a limit that is constant and a clock that does not go back; the decisions under other clocks are those of EvictionIsInvisible.
- BackupRestore.BackupRestores: nothing is said about a home in which something of another kind stands in the place of a saved node, or whose root leads to `/`.
- BackupRestore.IntoMissingRoot: for a missing root with only directories on the way to it, not below a link.
- BackupConfinement.EntryConfinedIff: for directory and file entries in a root without links; link entries are checked by PutEntry where their parent is a real directory.
- RedisAllocator.RedisConnections.CreateRedis: password and port selection of managed servers are not modelled; provisioning is a boolean.
- PortBindings.AppRegistry.EnsurePortAvailable: the live probe of the port, and concurrent requests between check and insert.
- Alerts: delivery of webhooks, and failing database writes.
- ByteUnits.UnitOf: the formatted number (`%.1f`), only the unit and the divisor.
- History.DownsampleHistory: floating-point rounding; values are reals, and the step is the exact quotient rounded up.
- Literals: the SQL mode without backslash escapes, and PostgreSQL escape strings.
- HTTP handlers, sessions, templates, configuration, encryption, the Adminer proxy, website and certificate management: they hold no further protocol, invariant over runs or allocation.
