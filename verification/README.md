# Verified models of the installer's stateful core

This project models, in Dafny, the parts of the Debian installer sources that keep
state and make promises about every run, and proves those promises.

| files | component |
|---|---|
| `PartedTable`, `PartedIds`, `PartedSpec`, `PartedGap`, `PartedServer` | parted_server: partition tables and ids, the effect of each command, the gap at the end of a disk, and the server that carries commands out |
| `UdpkgDependsField`, `UdpkgDepends` | udpkg: the split of a Depends field and the in-place topological sort |
| `UdpkgStatusWords`, `UdpkgStatusFile`, `UdpkgLocking`, `UdpkgInstall` | udpkg: status words, the status file, several processes sharing it through a lock, and installing |
| `MainMenu` | main-menu: configuring a package together with what it depends on |
| `NetcfgMask`, `NetcfgStatic`, `NetcfgAnswers`, `NetcfgWpa` | netcfg: subnets, the static dialogue, what its answers become, starting wpa_supplicant |
| `S390Ids`, `S390Errors`, `ZfcpConfig` | s390-zfcp: device identifiers, which ids are refused and how, and the unattended configuration |
| `PkgDetails`, `PkgDetailsLaws`, `PkgDetailsText`, `PkgDetailsLimits`, `PkgDetailsWords` | base-installer: extraction of package records, its laws, the text of a file, where the laws end, and the words of the lines printed |
| `Wrappers`, `CText` | the optional value, white space and numbers as text, shared by all |

Code that changes things in place is modelled by classes, arrays and loops; each such
method is proved equal to a function of its inputs or old state, and the promises are
lemmas about that function. What the outside world answers (libparted, debconf,
sysfs, a daemon, the user, other processes) is a parameter or a free choice, so the
results hold for every answer. `dafny verify dfyconfig.toml` checks the whole project.

## Main results

- **Order of installation.** `UdpkgDepends.DependsResolve`: the list is in dependency
  order if and only if no cycle can be reached from its head, and it holds exactly
  what the head leads to, each package once. It is *not* all packages: the walk over
  `next` continues on links that the first visit rewrote
  (`UdpkgDepends.WaitsForNothingIsDropped`).
- **Partition server.** Over every run of commands: an unchanged device remembers
  exactly its ordinary partitions (`PartedSpec.RunKeepsInvariant`), storage holds the
  last table written by one of three commands (`PartedSpec.StorageIsLastWritten`), UNDO
  restores it (`PartedSpec.UndoRestores`), and the server refines this while its
  exception handler and timer lines stay balanced (`PartedServer.Server.MainLoop`).
- **Status database.** Reading back a merge gives each name its processed, else cached,
  else old status (`UdpkgStatusFile.ReadBack`); in every interleaving no name is lost
  and each status is the last one given (`UdpkgLocking.StatusIsLastGiven`).
- **Configuration in dependency order.** `MainMenu.Menu.ConfigPackage`; a call fails exactly
  when the abort fired in it or its last command failed.
- **Subnets.** The bitwise gateway test is membership in an interval of integers
  (`NetcfgMask.SubnetIsInterval`), and the settings in the end are those last confirmed
  (`NetcfgStatic.WrittenIsConfirmed`), each from its own question
  (`NetcfgAnswers.SettingsAreAnswers`, `NetcfgAnswers.MaskIsAsked`).
- **Unattended zfcp.** `ZfcpConfig.Configurator.Run` halts, asks nothing, and ends well
  exactly when there are entries and nothing fails, with every detected device configured; each device that it configures has all
  its preseeded LUNs in its file, or none where LUNs are scanned automatically.
- **One line per request.** `PkgDetailsLaws.ExtractIsOneEach`, and for every file exactly
  when no request is empty: the n-th request of a name is answered by the last stanza
  of the n-th run of that name that has a blank line after its last stanza
  (`PkgDetailsLimits.ExtractIsWantedIff`). The words of that line are the values of the
  stanza (`PkgDetailsWords.PrintedWords`).

## Where the code differs from what it promises

- depends_sort returns only what the head of the list leads to
  (`UdpkgDepends.DependsSort`, `UdpkgDepends.WaitsForNothingIsDropped`), and a new
  package is recorded exactly when it is among that (`UdpkgInstall.RecordedIffReached`).
- A configuring udpkg merges a cache that may be out of date, so it can put back the
  status of a package that another process changed meanwhile; the exact condition is
  `UdpkgLocking.MergeKeepsIff`, a run that loses an update is `UdpkgLocking.LostUpdate`.
- status_print and status_parse undo each other only for one bit per field
  (`UdpkgStatusWords.StatusRoundTripIff`).
- Position "end" of NEW_PARTITION rounds towards zero, so near the start of a disk the
  span can be too short; the exact condition is `PartedTable.EndSpan`.
- The gap at the end of a disk keeps superblocks apart in bytes exactly for sector sizes
  that divide 64 KiB or exceed it (`PartedTable.GapSufficesIff`).
- That gap is kept by every command except the two that resize
  (`PartedGap.RunKeepsGap`, `PartedGap.ResizeLosesGap`).
- The deep-recursion counter of main-menu is never reset; once it stands at the limit
  the abort fires exactly for packages with an unmet dependency
  (`MainMenu.Menu.ConfigPackage`).
- A gateway in the subnet is offered exactly when the question holds one already, or
  holds nothing, the mask is shorter than the address and the interface does not have
  the first address itself (`NetcfgMask.OfferedIff`, `NetcfgStatic.OfferIsReachableIff`);
  so an old offer outlives its network (`NetcfgStatic.StaleOffer`).
- A gateway that is neither the peer nor reachable is written exactly when the last
  question that settled it was for a point-to-point peer, put with an unacceptable
  gateway and answered with none (`NetcfgStatic.WrittenGatewayIff`,
  `NetcfgStatic.UnreachableGatewayIsWritten`).
- What is written is what was shown for confirmation exactly without a peer, or with a
  full mask and the peer as gateway (`NetcfgStatic.WrittenAsShownIff`,
  `NetcfgStatic.PeerIsWrittenInstead`).
- pkgdetails gives each request its record exactly when no request is empty
  (`PkgDetailsLimits.ExtractIsWantedIff`), answers with a last stanza exactly when it has
  a blank line (`PkgDetailsLimits.LastStanzaAnswersIff`,
  `PkgDetailsLimits.UnclosedPackageIsMissing`), and prints what a stanza says exactly when
  each field it does not set was last set to nothing (`PkgDetailsText.RecordIsOwnIff`,
  `PkgDetailsLimits.FilenameIsInherited`).
- wpa_supplicant is used with a network added to it exactly when none was found running
  at the start (`NetcfgWpa.NetworkAddedIff`); a daemon that is found and then replaced
  gets none (`NetcfgWpa.RestartedWithoutNetwork`).

## Model

| member | source | states |
|---|---|---|
| UdpkgDependsField.DependsSplit | packages/udpkg/depends.c:10-41 | cutting the copy in place leaves, for every comma-separated piece of the first line, a pointer to exactly its first word as a C string, null where there is none, and a final null; the vector stays inside its array iff there are fewer than 64 pieces |
| UdpkgDependsField.CutLine | packages/udpkg/depends.c:21-36 | the scan stops at the end of the line with every word held by its pointer and cut off by a terminator |
| UdpkgDependsField.CutAt | packages/udpkg/depends.c:23-35 | one character: which byte is overwritten and how the vector changes, nothing else touched |
| UdpkgDependsField.WordsSnoc | packages/udpkg/depends.c:23-35 | the words of a line grow by one character as the states of the scan do |
| UdpkgDependsField.Advance | packages/udpkg/depends.c:23-35 | one turn keeps every finished word intact in the buffer and extends the open one |
| UdpkgDependsField.Terminated | packages/udpkg/depends.c:37-39 | ending the buffer makes every held word readable as a C string |
| UdpkgDependsField.ReadVector | packages/udpkg/depends.c:121-126 | walking the vector reads the words up to the first missing one |
| UdpkgDependsField.ReadDepends | packages/udpkg/depends.c:121-126 | splitting and walking together give the dependencies of the field |
| UdpkgDepends.Visit | packages/udpkg/depends.c:43-79 | a visit puts the package in front, adds only what it leads to, keeps the list linked, free of repetition and sorted up to cycles, and paints at least one package |
| UdpkgDepends.VisitRequired | packages/udpkg/depends.c:62-64 | after the loop no package that waits for this one is unvisited |
| UdpkgDepends.Push | packages/udpkg/depends.c:74-78 | linking the package in front keeps the order: what waits for it is further down or closes a cycle |
| UdpkgDepends.DependsSort | packages/udpkg/depends.c:81-97 | the result starts at the old head, is linked through `next`, holds exactly what the head reaches, once each, and is a topological order iff no cycle is reachable |
| UdpkgDepends.PaintWhite | packages/udpkg/depends.c:88-89 | all packages of the list are white |
| UdpkgDepends.FinishedSort | packages/udpkg/depends.c:91-96 | when nothing is being visited the list is exactly the reachable set, ordered iff acyclic |
| UdpkgDepends.OrderedIffAcyclic | packages/udpkg/depends.c:43-79 | a list sorted up to cycles is a topological order iff the reachable graph has no cycle |
| UdpkgDepends.OrderForbidsCycle | packages/udpkg/depends.c:43-79 | a topological order leaves no edge on a cycle |
| UdpkgDepends.FindTarget | packages/udpkg/depends.c:134-150 | the inner search finds the first package that has the name or whose Provides starts with it, character by character, and null only where every listed package has neither |
| UdpkgDepends.TargetMeaning | packages/udpkg/depends.c:134-139 | for every list: the package found has the name or a Provides field that starts with it, no earlier one has either, and none is found iff no listed package has |
| UdpkgDepends.ResolveOne | packages/udpkg/depends.c:134-155 | succeeds iff a target exists with room below the limit; then exactly that target records the waiting package, and never itself |
| UdpkgDepends.ResolvePackage | packages/udpkg/depends.c:121-158 | the dependencies of one package are recorded in order; failure means that the whole list cannot be resolved |
| UdpkgDepends.Unresolved | packages/udpkg/depends.c:140-155 | a request without target or room sinks the list |
| UdpkgDepends.DependsResolve | packages/udpkg/depends.c:111-162 | null iff the list is empty or some unmet dependency cannot be resolved; else what the head leads to, once each, each package after the ones its unmet dependencies were resolved to iff no cycle is reachable |
| UdpkgDepends.EdgeMeaning | packages/udpkg/depends.c:119-159 | the edges built are exactly the unmet dependencies between different packages of the list |
| UdpkgDepends.RequestsMeaning | packages/udpkg/depends.c:119-131 | a request is a dependency of a listed package that is not installed and ok |
| UdpkgDepends.WaitingMeaning | packages/udpkg/depends.c:134-150 | a package waits for another iff one of its requests resolves to it |
| UdpkgDepends.OrdersAgree | packages/udpkg/depends.c:111-162 | topological order of the graph is dependency order of the packages |
| UdpkgDepends.WaitsForNothingIsDropped | packages/udpkg/depends.c:91-93 | a package other than the head that waits for nothing in the list is never returned |
| UdpkgDepends.OnlyProviderIsNeeded | packages/udpkg/depends.c:134-158 | an unmet name that only one other listed package has or provides makes the package wait for it, and in every dependency order that package comes first |
| UdpkgDepends.ProvidedResolves | packages/udpkg/depends.c:119-159 | of two packages, in either order, where one needs only what the other has or provides, everything resolves and the one waits for the other |
| UdpkgDepends.InstalledMeaning | packages/udpkg/depends.c:127-131 | in the words of the status file: a dependency is met iff its flag is "ok" and its status "installed" |
| UdpkgStatusWords.StatusParse | packages/udpkg/status.c:50-73 | the loops compute the bits of the three words, an error for an unknown word, a crash for a missing one |
| UdpkgStatusWords.StatusPrint | packages/udpkg/status.c:75-102 | prints the lowest word of each field, or nothing when a field has none |
| UdpkgStatusWords.ParsePrinted | packages/udpkg/status.c:50-102 | parsing what was printed gives the lowest bit of each field |
| UdpkgStatusWords.StatusRoundTripIff | packages/udpkg/status.c:50-102 | a status survives printing and parsing iff it has one bit per field or none at all; printing never makes the parser crash |
| UdpkgStatusWords.WordsOfBits | packages/udpkg/status.c:50-102 | each choice of three words is read as its three bits, want from 0, flag from 5 and status from 9 on, and these are printed as the words |
| UdpkgStatusWords.InstalledWords | packages/udpkg/udpkg.h:28-50 | "install ok installed" is read as the bits 1, 5 and 12 and printed from them; 5 and 12 are the bits that udpkg tests |
| UdpkgStatusWords.RemovedWords | packages/udpkg/udpkg.h:28-50 | so is a deinstalled package with a flag and configuration files left: 3, 8 and 14 |
| UdpkgStatusFile.ControlRead | packages/udpkg/status.c:134-218 | reads one stanza up to its blank line |
| UdpkgStatusFile.StatusRead | packages/udpkg/status.c:259-323 | the tree of all stanzas of the file |
| UdpkgStatusFile.InsertStanza | packages/udpkg/status.c:277-319 | a real package replaces what is there, a provided name is only added |
| UdpkgStatusFile.TreeMeaning | packages/udpkg/status.c:259-323 | whatever the order of stanzas: the last real stanza of a name wins, else the first provider |
| UdpkgStatusFile.ReadBlocks | packages/udpkg/status.c:134-323 | reading a well-formed file gives every name the status of its last stanza |
| UdpkgStatusFile.ReadBlock | packages/udpkg/status.c:134-218 | a well-formed block is read as its name, its status and what the last line of its body that begins with "Provides: " says, or nothing without one; reading stops at its blank line |
| UdpkgStatusFile.ReadProviders | packages/udpkg/status.c:284-319 | the first stanza that provides a name is the first block with such a line |
| UdpkgStatusFile.ReadTree | packages/udpkg/status.c:259-323 | for every well-formed file: a name is in the tree with the status of its last block, or else with that of the first block that provides it, and is not there without either |
| UdpkgStatusFile.MergeLine | packages/udpkg/status.c:345-378 | one line: skipped for processed packages, with the cached status for a status line, else copied |
| UdpkgStatusFile.StatusMerge | packages/udpkg/status.c:325-441 | the file after the merge: filtered lines, then the processed packages |
| UdpkgStatusFile.MergeBlocks | packages/udpkg/status.c:345-378 | the line-by-line loop equals dropping and rewriting whole stanzas |
| UdpkgStatusFile.ProcessedText | packages/udpkg/status.c:381-433 | the lines that are written for a processed package |
| UdpkgStatusFile.KeptText | packages/udpkg/status.c:345-378 | each block that stays is one of the old file with the same lines but for the status, which is the cached one if there is one |
| UdpkgStatusFile.MergeIsWellFormed | packages/udpkg/status.c:325-441 | a merge of a well-formed file is well formed again |
| UdpkgStatusFile.StatusInMerged | packages/udpkg/status.c:325-441 | the status of each name after a merge: processed, else cached, else old |
| UdpkgStatusFile.ReadBack | packages/udpkg/status.c:134-441 | reading what a merge wrote gives each name its processed, else cached, else old status, as printed and parsed; no name is lost |
| UdpkgLocking.DoIsSafe | packages/udpkg/status.c:220-257 | each step keeps the lock with the one process between its lock and unlock, an unpacker's cache equal to the file, and the file well formed |
| UdpkgLocking.RunIsSafe | packages/udpkg/udpkg.c:457-512 | so does every interleaving |
| UdpkgLocking.FileAfter | packages/udpkg/udpkg.c:457-512 | a step changes the status of a name only by a merge, to the merged status |
| UdpkgLocking.NamesNeverShrink | packages/udpkg/udpkg.c:457-512 | in every interleaving no package name leaves the status file |
| UdpkgLocking.StatusIsLastGiven | packages/udpkg/status.c:345-378 | the status of a name is the one given by the last merge that processed or cached it, so a package unknown to a process keeps what another gave it |
| UdpkgLocking.MergeKeepsIff | packages/udpkg/status.c:345-378 | a merge leaves an unprocessed package as it is iff it is not cached or cached with that status |
| UdpkgLocking.UnpackKeepsOthers | packages/udpkg/udpkg.c:457-483 | unpacking, which never drops the lock, changes no other package |
| UdpkgLocking.LastMergeWins | packages/udpkg/udpkg.c:485-512 | of two configuring processes the later merge restores what it had cached |
| UdpkgLocking.LostUpdate | packages/udpkg/udpkg.c:485-512 | from any safe system with two idle configuring processes and a package that is not installed: thirteen steps after which the package, installed by the first merge, has its old status again |
| UdpkgLocking.LostUpdateExample | packages/udpkg/udpkg.c:485-512 | such a system: one package that is "install ok unpacked" |
| UdpkgLocking.MergeTurnWrites | packages/udpkg/udpkg.c:485-512 | lock, merge and unlock of one process, and what they leave alone |
| UdpkgLocking.UnpackTurn | packages/udpkg/udpkg.c:457-483 | lock, read, merge and unlock of one unpacking process: the file is the merge of its packages into what it has just read, and the other processes are where they were |
| UdpkgLocking.ConfiguredWords | packages/udpkg/udpkg.c:105-150 | configuring keeps the want and flag words; the status word becomes "half-configured" when a script fails and "installed" when none does |
| UdpkgInstall.DpkgInstall | packages/udpkg/udpkg.c:514-564 | the file is left alone unless the control information could be read and all dependencies resolve; then it is merged with exactly the list that the sort returns, as linked |
| UdpkgInstall.MergeList | packages/udpkg/status.c:381-433 | the walk over `next` takes the packages of the sorted list, in order |
| UdpkgInstall.InstalledFile | packages/udpkg/udpkg.c:560-561 | the file then names what it named before and the packages of that list, nothing else, and the others keep their status |
| UdpkgInstall.RecordedIffReached | packages/udpkg/udpkg.c:535-561 | a new package is recorded iff the head of the list leads to it |
| UdpkgInstall.OnlyFirstIsRecorded | packages/udpkg/udpkg.c:535-561 | a package other than the head that waits for none of the others is not recorded |
| UdpkgInstall.InstalledIsWellFormed | packages/udpkg/udpkg.c:560-561 | the file stays well formed |
| UdpkgInstall.InstalledStanza | packages/udpkg/status.c:381-433 | the file then has, for each package of the list, the stanza of its name, its status as printed, its Depends and its Provides line |
| UdpkgInstall.ProvidedIsKnown | packages/udpkg/status.c:284-314 | what an installed package provides is in the tree of the file from then on |
| MainMenu.Menu.ConfigPackage | packages/main-menu/main-menu.c:786-854 | every configure command logged had all direct dependencies installed (or nonexistent, or virtual and declined); a call fails iff the abort fired in it or its last command failed, then with the answer of that command, so that it succeeds where nothing fails; success ends with the command of the package and leaves it and everything installed before installed; nothing is installed without a successful command; depth is as on entry plus one iff the abort fired; once it stands at the limit the abort fires iff a dependency is not installed |
| MainMenu.Menu.ConfigDependencies | packages/main-menu/main-menu.c:808-832 | the loop over the dependencies leaves each of them in place, or fails as one of them did |
| MainMenu.Menu.ConfigDependency | packages/main-menu/main-menu.c:811-831 | one dependency, one level deeper; at the limit the abort fires |
| MainMenu.Menu.RunConfigure | packages/main-menu/main-menu.c:834-853 | the package is installed unless the command failed, then half-configured |
| MainMenu.Menu.SatisfyVirtual | packages/main-menu/main-menu.c:425-556 | the same promises for virtual packages; who is asked has a provider that is a menu item; unasked, one provider ends up installed; asked, the first entry with the chosen line does |
| MainMenu.Menu.UseProvider | packages/main-menu/main-menu.c:504-549 | the question is put iff a provider is a menu item; "go back" declines, otherwise the chosen entry is configured, or all real providers |
| MainMenu.Menu.CollectProviders | packages/main-menu/main-menu.c:440-501 | finds whether a provider is installed, whether there is any and whether one of them is a menu item, or fails with a plain dependency |
| MainMenu.Menu.ConfigureProviders | packages/main-menu/main-menu.c:526-549 | configures the chosen entry, or all real ones |
| PartedTable.GeometriesMeaning | packages/partman-base/parted_server.c:514-554 | the remembered ranges are those of the partitions that are not extended, metadata or free |
| PartedTable.ListedMeaning | packages/partman-base/parted_server.c:514-554 | a partition is among those remembered iff it is in the table and ordinary |
| PartedTable.CDivMeaning | packages/partman-base/parted_server.c:1022-1023 | the sectors of an id are rounded towards zero |
| PartedTable.PartitionWithId | packages/partman-base/parted_server.c:1012-1032 | the loop finds the first partition with the parsed sectors |
| PartedTable.IdRoundTrip | packages/partman-base/parted_server.c:1012-1113 | the byte id printed for a partition finds that partition when no two share both ends |
| PartedTable.HasIdMeaning | packages/partman-base/parted_server.c:1022-1029 | an id names the partitions whose first sector holds its first byte and whose last sector ends at its last byte or less than a sector before it |
| PartedIds.ScanPrintedId | packages/partman-base/parted_server.c:1020-1021 | scanning the printed decimal text of an id, with the base detection of the conversion, gives its two numbers |
| PartedIds.TextRoundTrip | packages/partman-base/parted_server.c:1012-1113 | so the text printed for a partition finds that partition, for all bytes below 2^63 |
| PartedTable.FullSpan | packages/partman-base/parted_server.c:1949-1962 | "full" yields exactly the sectors of the range |
| PartedTable.BeginningSpan | packages/partman-base/parted_server.c:1949-1962 | "beginning" starts at the range, exceeds the length by one byte to one sector, and stays inside iff the length is below the size |
| PartedTable.EndSpan | packages/partman-base/parted_server.c:1949-1962 | "end" ends with the range, and exceeds the length by one byte to one sector iff the length does not pass the start of the disk or does so by whole sectors |
| PartedTable.EndSpanInside | packages/partman-base/parted_server.c:1949-1962 | then it stays inside iff the length is below the size |
| PartedTable.EndSpanTooShort | packages/partman-base/parted_server.c:1949-1962 | a range at the start of the disk where "end" is too short |
| PartedTable.SuperblockSectorBelow | packages/partman-base/parted_server.c:695-717 | in grains: the superblock of a partition inside the gap constraint is strictly below that of the disk |
| PartedTable.GapSufficesIff | packages/partman-base/parted_server.c:695-717 | in bytes: this holds for all lengths and partitions iff the sector size divides 64 KiB or exceeds it |
| PartedTable.GapSuffices | packages/partman-base/parted_server.c:695-717 | the positive half, for each disk and partition |
| PartedTable.GapTooSmall | packages/partman-base/parted_server.c:695-717 | for every other sector size a disk and partition whose superblocks coincide |
| PartedTable.BetweenMeansBlocked | packages/partman-base/parted_server.c:969-1009 | nothing lies between free space and extended partition iff the latter can be stretched over the former without meeting a primary partition |
| PartedTable.BlockerIsPrimary | packages/partman-base/parted_server.c:994-1003 | the inner assertion that a blocker is not logical cannot fail |
| PartedSpec.StepDeviceKeeps | packages/partman-base/parted_server.c:514-638 | every command keeps: a table belongs to an open device, and an unchanged open device remembers exactly its ordinary ranges |
| PartedSpec.StepKeepsInvariant | packages/partman-base/parted_server.c:427-638 | so does a command on the whole registry, whose names stay different |
| PartedSpec.RunKeepsInvariant | packages/partman-base/parted_server.c:2378-2464 | so does every run of commands |
| PartedSpec.UnchangedIsNotVirtual | packages/partman-base/parted_server.c:589-611 | on an unchanged device VIRTUAL says "no" for every ordinary partition, and "yes" only for a range that none has |
| PartedSpec.UnchangedUntilEdited | packages/partman-base/parted_server.c:1411-1469 | until a command edits or closes it a device stays open and unchanged with a true snapshot, although queries move the extended partition |
| PartedSpec.StepDeviceUnchanged | packages/partman-base/parted_server.c:1201-1469 | commands that do not edit leave an unchanged device unchanged and its snapshot as it was |
| PartedSpec.ChangedKeepsSnapshot | packages/partman-base/parted_server.c:622-638 | a device left changed remembers what it did before |
| PartedSpec.OtherDevices | packages/partman-base/parted_server.c:427-454 | a command changes only the device it names |
| PartedSpec.StepDeviceWrites | packages/partman-base/parted_server.c:1363-1389 | storage changes only by COMMIT of a changed device, a successful RESIZE_PARTITION of a partition that is not virtual, and VIRTUAL_RESIZE_PARTITION |
| PartedSpec.StorageIsLastWritten | packages/partman-base/parted_server.c:2014-2089 | over every run each path holds the table of the last such write |
| PartedSpec.UndoReads | packages/partman-base/parted_server.c:1391-1408 | UNDO reads the table from storage and remembers it |
| PartedSpec.UndoRestores | packages/partman-base/parted_server.c:1391-1408 | after UNDO the table in memory is the last one written, whatever was edited since |
| PartedSpec.RegistryAssertionIff | packages/partman-base/parted_server.c:1232-1246 | the assertions of the registry fail only for CLOSE of an unopened device |
| PartedSpec.FailedResizeKeeps | packages/partman-base/parted_server.c:904-923 | a resize that fails leaves the partition and all other ordinary ones as they were, unless libparted refuses to put the old geometry back |
| PartedSpec.CreatedAdds | packages/partman-base/parted_server.c:766-822 | a created partition is one more ordinary partition among those that were there |
| PartedSpec.NewPartitionAdds | packages/partman-base/parted_server.c:1907-1982 | NEW_PARTITION adds exactly one ordinary partition or none, writes nothing and keeps the snapshot |
| PartedSpec.NewPartitionSpans | packages/partman-base/parted_server.c:1949-1972 | where the sectors can be taken as asked: "full" fills the range, "beginning" and "end" are anchored, longer by one byte to one sector, "end" exactly away from the start of the disk |
| PartedSpec.NewPartitionKeepsGap | packages/partman-base/parted_server.c:695-717 | the superblock of a partition created on a device that is not device-mapper, from a sector that is not negative and for a sector size that fits 64 KiB, is not that of the disk |
| PartedSpec.DeleteRemoves | packages/partman-base/parted_server.c:1984-2011 | DELETE_PARTITION of an ordinary partition, where libparted answers with the table that has one less at its place: that is the table in memory, the device is marked and nothing is written |
| PartedSpec.DeleteRemovesLogical | packages/partman-base/parted_server.c:1984-2011 | of the extended partition: the ordinary partitions left are those that are not logical |
| PartedSpec.DeleteAddsNone | packages/partman-base/parted_server.c:1984-2011 | in every case the ordinary partitions afterwards are those there were or what a deletion leaves; without a partition of the id the table stays |
| PartedSpec.NameSet | packages/partman-base/parted_server.c:1694-1724 | SET_NAME changes the name of the one partition and nothing else in the table |
| PartedSpec.FlagsSet | packages/partman-base/parted_server.c:1624-1674 | SET_FLAGS changes its flags and nothing else |
| PartedSpec.FileSystemSet | packages/partman-base/parted_server.c:1816-1865 | CHANGE_FILE_SYSTEM sets the flag, or the type of an ordinary partition, and nothing else; the device stays as it is where that is so already |
| PartedSpec.ExtendedMoves | packages/partman-base/parted_server.c:1410-1469 | PARTITIONS takes what libparted makes of the extended partition, except on dvh labels |
| PartedSpec.RangeMoves | packages/partman-base/parted_server.c:2159-2201 | GET_VIRTUAL_RESIZE_RANGE does so exactly for a logical partition, on every label |
| PartedSpec.OpenReads | packages/partman-base/parted_server.c:1201-1230 | OPEN of a device that is found reads its table, if that can be read, and remembers its ordinary partitions |
| PartedSpec.UndoForgets | packages/partman-base/parted_server.c:1391-1408 | UNDO gives up the table in memory for the one on storage, if that can be read, and remembers that |
| PartedSpec.CloseForgets | packages/partman-base/parted_server.c:1232-1246 | CLOSE forgets the device and its table |
| PartedSpec.CommitWrites | packages/partman-base/parted_server.c:1363-1389 | COMMIT of a changed table that can be written: it is on storage, and the device is unchanged and remembers it |
| PartedSpec.EndForMeaning | packages/partman-base/parted_server.c:2036-2037 | a size is asked for as its whole sectors from the start of the partition |
| PartedSpec.VirtualResizeReaches | packages/partman-base/parted_server.c:2075-2085 | VIRTUAL_RESIZE_PARTITION ends with a partition of at least the size, and writes that table if it can |
| PartedGap.StepDeviceInGap | packages/partman-base/parted_server.c:1201-2201 | every command but the two that resize, and a new label that does not itself fill it, keeps the gap at the end in memory and on storage: each ordinary partition ends before it |
| PartedGap.RunKeepsGap | packages/partman-base/parted_server.c:2378-2464 | so does every run without a resize whose new labels keep it |
| PartedGap.SuperblocksApart | packages/partman-base/parted_server.c:685-717 | where the gap is kept no superblock of a partition is that of the disk, for sector sizes that fit |
| PartedGap.FailedResizeInGap | packages/partman-base/parted_server.c:904-923 | a failed resize keeps it too, when the old geometry is put back |
| PartedGap.ResizeGoes | packages/partman-base/parted_server.c:2036-2046 | a resize to the last sector, with no file system or exception in the way, reaches memory and storage |
| PartedGap.ResizeLosesGap | packages/partman-base/parted_server.c:828-926 | it leaves no gap, and from a 64 KiB boundary to the end of a disk of whole blocks the superblock of the partition is that of the disk |
| PartedGap.LosingResize | packages/partman-base/parted_server.c:828-926 | there is such a resize of a partition that leaves the gap |
| PartedServer.Server.StartTimer | packages/partman-base/parted_server.c:240-247 | opens the client's bar; the lines stay bracketed |
| PartedServer.Server.StopTimer | packages/partman-base/parted_server.c:249-256 | closes it; the lines stay bracketed |
| PartedServer.Server.PseudoException | packages/partman-base/parted_server.c:299-329 | an exception suspends a running timer around its dialogue and restores it |
| PartedServer.Server.TimeredFileSystemResize | packages/partman-base/parted_server.c:265-277 | progress and exceptions in any order keep the lines bracketed and leave no bar open |
| PartedServer.Server.DeactivateExceptionHandler | packages/partman-base/parted_server.c:378-384 | counts up; libparted's fetch and leave calls alternate |
| PartedServer.Server.ActivateExceptionHandler | packages/partman-base/parted_server.c:386-393 | counts down from a positive count; the calls alternate |
| PartedServer.Server.PossiblePrimaryPartition | packages/partman-base/parted_server.c:934-947 | true iff the free space is not logical and there are fewer primary and extended partitions than the label allows; the handler count is restored |
| PartedServer.Server.PossibleExtendedPartition | packages/partman-base/parted_server.c:950-966 | true iff extended partitions are supported, there is none, and a primary fits |
| PartedServer.Server.PossibleLogicalPartition | packages/partman-base/parted_server.c:979-1009 | with an extended partition: true iff no active partition lies between it and the space; without: iff an extended one is possible |
| PartedServer.Server.PartitionInfo | packages/partman-base/parted_server.c:1036-1113 | the type column says exactly what is possible in a free space |
| PartedServer.Server.IndexOfName | packages/partman-base/parted_server.c:427-454 | the entry of a name, added unopened when it is new |
| PartedServer.Server.RememberGeometriesNamed | packages/partman-base/parted_server.c:514-554 | the loop stores exactly the ordinary ranges, and fails iff there are fifty or more |
| PartedServer.Server.UnchangeNamed | packages/partman-base/parted_server.c:631-638 | clears the mark and takes a new snapshot |
| PartedServer.Server.NamedPartitionIsVirtual | packages/partman-base/parted_server.c:589-611 | the scan of the snapshot says whether the range is absent from it |
| PartedServer.Server.FindPartition | packages/partman-base/parted_server.c:1262-1284 | an id as scanned, looked up in the table of the device |
| PartedServer.Server.ResizePartition | packages/partman-base/parted_server.c:827-926 | the resize with and without file system has the specified outcome, with the old geometry put back after a failed file-system resize, and leaves handler and timer as they were |
| PartedServer.Server.CommandOpen | packages/partman-base/parted_server.c:1201-1230 | the effect of OPEN on the device, including its failures |
| PartedServer.Server.CommandClose | packages/partman-base/parted_server.c:1232-1246 | the effect of CLOSE, including the assertion |
| PartedServer.Server.CommandStatus | packages/partman-base/parted_server.c:1262-1335 | VIRTUAL answers whether the partition is absent from the snapshot, IS_CHANGED the mark; DISK_UNCHANGED and DUMP have their effects |
| PartedServer.Server.CommandCommit | packages/partman-base/parted_server.c:1363-1389 | COMMIT writes a changed table and remembers it |
| PartedServer.Server.CommandUndo | packages/partman-base/parted_server.c:1391-1408 | UNDO replaces the table by the one on storage, puts the handler back, and only then remembers it |
| PartedServer.Server.CommandPartitions | packages/partman-base/parted_server.c:1410-1469 | PARTITIONS moves only the extended partition and marks nothing |
| PartedServer.Server.CommandAsk | packages/partman-base/parted_server.c:1471-1622 | the printing queries change nothing and stop the server exactly where they dereference or reject an id |
| PartedServer.Server.CommandSetFlags | packages/partman-base/parted_server.c:1624-1674 | SET_FLAGS sets the flags of one active partition and marks the device, with the handler deactivated while the flags are read and back afterwards |
| PartedServer.Server.CommandSetName | packages/partman-base/parted_server.c:1694-1724 | SET_NAME renames one active partition and marks the device, with the handler deactivated meanwhile; without a table it dereferences null |
| PartedServer.Server.CommandChangeFileSystem | packages/partman-base/parted_server.c:1816-1865 | CHANGE_FILE_SYSTEM sets a flag or the type of one partition, and marks the device only when that changes something |
| PartedServer.Server.CommandNewLabel | packages/partman-base/parted_server.c:1867-1905 | NEW_LABEL replaces the table and marks the device |
| PartedServer.Server.CommandNewPartition | packages/partman-base/parted_server.c:1907-1982 | NEW_PARTITION asks for the sectors of its range, position and length, adds the partition that libparted creates for them or leaves all ordinary ones alone, and marks the device |
| PartedServer.Server.CommandDeletePartition | packages/partman-base/parted_server.c:1984-2011 | DELETE_PARTITION takes the table that libparted answers with where that is the old one without the partition, and marks the device |
| PartedServer.Server.CommandResizePartition | packages/partman-base/parted_server.c:2013-2051 | RESIZE_PARTITION, which writes iff the partition is on storage and the resize succeeded |
| PartedServer.Server.CommandVirtualResizePartition | packages/partman-base/parted_server.c:2053-2089 | VIRTUAL_RESIZE_PARTITION, which grows the end until the size is reached and writes |
| PartedServer.Server.CommandResizeRange | packages/partman-base/parted_server.c:2091-2157 | GET_RESIZE_RANGE moves only the extended partition, whatever the label, and marks nothing; maximizing never meets a table without one |
| PartedServer.Server.CommandVirtualResizeRange | packages/partman-base/parted_server.c:2159-2201 | so does GET_VIRTUAL_RESIZE_RANGE |
| PartedServer.Server.Execute | packages/partman-base/parted_server.c:2378-2464 | one turn of the loop refines the specified step, and ends with the handler in place, no bar open, and the invariant |
| PartedServer.Server.MainLoop | packages/partman-base/parted_server.c:2378-2464 | the same for every list of commands |
| NetcfgMask.CountBits | packages/netcfg/netcfg-common.c:75-89 | the shifting loop counts the leading ones |
| NetcfgMask.MaskLength6 | packages/netcfg/netcfg-common.c:91-124 | the word-by-word scan gives the leading ones of the whole mask |
| NetcfgMask.MaskFromLength4 | packages/netcfg/netcfg-common.c:138-163 | the loop builds the mask with exactly the first bits set |
| NetcfgMask.MaskFromLength6 | packages/netcfg/netcfg-common.c:138-163 | so does the byte-wise construction |
| NetcfgMask.LengthOfMask | packages/netcfg/netcfg-common.c:75-163 | scanning a built mask gives its length back |
| NetcfgMask.MaskOfLengthIff | packages/netcfg/netcfg-common.c:75-163 | building from a scanned length gives the mask back iff it is contiguous |
| NetcfgMask.SubnetIsInterval | packages/netcfg/netcfg-common.c:1628-1669 | the subnet is the integer interval from network to broadcast, of 2^(w-n) addresses, and the bitwise test is membership |
| NetcfgMask.Reachable4IsInterval | packages/netcfg/netcfg-common.c:1671-1702 | an IPv4 gateway is reachable iff it is not zero and lies in that interval |
| NetcfgMask.Reachable6IsInterval | packages/netcfg/netcfg-common.c:1671-1702 | an IPv6 gateway is reachable iff it is link-local or lies in the interval |
| NetcfgMask.LinkLocalIsInterval | packages/netcfg/netcfg-common.c:1684-1687 | a gateway is link-local iff its first sixteen bits are between fe80 and febf |
| NetcfgMask.GatewayReachable6 | packages/netcfg/netcfg-common.c:1671-1702 | the word-by-word loop decides that |
| NetcfgMask.PreseedGateway | packages/netcfg/static.c:116-155 | the computation word by word fills an empty gateway question with the first address of the subnet, or with a text that is no address when that is the interface itself; a question that holds a text is left alone |
| NetcfgMask.ProposedGatewayIff | packages/netcfg/static.c:126-150 | an address in the subnet is worked out iff the mask is shorter than the address and the interface does not have the first address; it is never zero |
| NetcfgMask.OfferedIff | packages/netcfg/static.c:116-155 | what the question holds afterwards is an address in the subnet iff it held one already, or was empty and one is worked out |
| NetcfgMask.OwnAddressIff | packages/netcfg/static.c:140-150 | the interface has the first address iff its host part is 0...01 |
| NetcfgMask.FirstAddressGetsNone | packages/netcfg/static.c:140-150 | for 192.168.1.1/24 no address is worked out, for 192.168.1.2/24 it is 192.168.1.1 |
| NetcfgStatic.Interface.GetStatic | packages/netcfg/static.c:537-696 | the loop over the interface's fields follows the dialogue |
| NetcfgStatic.Interface.Turn | packages/netcfg/static.c:551-693 | one question: new state, fields and pending nameservers |
| NetcfgStatic.Interface.GatewayAccepted | packages/netcfg/static.c:600-603 | the check after the gateway question |
| NetcfgStatic.WrittenIsConfirmed | packages/netcfg/static.c:551-693 | in the hostname, domain and final states all settings are those of the last confirmation answered "true" |
| NetcfgStatic.GatewayIsReachable | packages/netcfg/static.c:551-693 | without a point-to-point question the settled gateway is empty or reachable |
| NetcfgStatic.SettledGatewayIff | packages/netcfg/static.c:551-616 | in every run the settled gateway is empty or reachable iff it was not last settled by a peer question put with an unacceptable gateway |
| NetcfgStatic.WrittenGatewayIff | packages/netcfg/write_interface.c:113-131 | in every run with a settled gateway: a gateway is written that is neither the peer nor reachable iff a peer question settled it badly and no peer was given |
| NetcfgStatic.WrittenAsShownIff | packages/netcfg/write_interface.c:113-148 | in every run that ends: the address, mask, gateway and peer written are those last confirmed iff there is no peer, or the mask is full and the gateway is the peer |
| NetcfgStatic.PeerKeepsOldGateway | packages/netcfg/static.c:551-693 | a run of twelve answers, with or without a peer, that ends with the gateway of the first network at the second address |
| NetcfgStatic.UnreachableGatewayIsWritten | packages/netcfg/static.c:551-693 | from an interface without a gateway, with an empty peer: 10.0.0.2/24 is written with gateway 192.168.1.1, which is not reachable |
| NetcfgStatic.PeerIsWrittenInstead | packages/netcfg/write_interface.c:121-129 | the same run with a peer: the peer is written as gateway and a full mask, neither of which was shown |
| NetcfgStatic.OfferIsReachableIff | packages/netcfg/static.c:595-604 | in every run the text offered for the gateway is an address in the subnet iff the last text of the question is, or it has none and one is worked out |
| NetcfgStatic.BackKeepsOffer | packages/netcfg/static.c:551-604 | going back twice and giving another address leaves the offer of the first network |
| NetcfgStatic.StaleOffer | packages/netcfg/static.c:551-604 | 192.168.1.2/24 then 10.0.0.2/24: what is offered is 192.168.1.1, although a reachable gateway could be worked out |
| NetcfgAnswers.SettingsAreAnswers | packages/netcfg/static.c:551-693 | in every run the address, the peer and the nameservers to be confirmed are those of the last answer that their own question took |
| NetcfgAnswers.GatewayIsAnswer | packages/netcfg/static.c:595-604 | in every run the gateway is that of the last text its question took, and none for an empty text or the word for none |
| NetcfgAnswers.LengthIsAnswer | packages/netcfg/static.c:556-592 | in every run the mask length is that of the last address, or the leading ones of a mask given after it |
| NetcfgAnswers.NameserversAreAnswer | packages/netcfg/static.c:612-664 | in every run the nameservers that are written are those given last |
| NetcfgAnswers.MaskIsAsked | packages/netcfg/static.c:556-592 | in every run, where the gateway question is put or passed, the length is from an address that has one or from a mask, unless the peer question was put since the address |
| NetcfgAnswers.RejectedAsksAgain | packages/netcfg/static.c:577-604 | a question that does not take an answer is put again and changes no setting |
| NetcfgAnswers.WayBack | packages/netcfg/static.c:551-640 | going back again and again leads from the domain through hostname, nameservers, gateway, mask and address to the main program, and changes no setting |
| NetcfgAnswers.Ipv6PeerGoesNowhere | packages/netcfg/static.c:577-588 | with IPv6 addresses a point-to-point interface never gets past address and peer |
| NetcfgAnswers.StraightRun | packages/netcfg/static.c:551-693 | a user who answers every question, with a reachable gateway, and confirms is through after six turns, or seven with the mask question, which is put exactly for an address without a length; what is written is what was answered |
| NetcfgWpa.WpaSupplicantStart | packages/netcfg/wpa.c:298-422 | whatever the daemon answers it follows the machine until that halts, after at most five PINGs and with the handle closed; success only after PING, adding the network, ESSID, key, scan flag, enabling and polling, in order and all successful; it gives up at once where no daemon can be started, reached or made to connect, otherwise only at the fifth PING |
| NetcfgWpa.RunIsSound | packages/netcfg/wpa.c:316-420 | after every turn of every run: the PINGs are counted, the visits since the last one are an attempt, ADD_NETWORK is sent iff no daemon was found at the start, and the four settings always are |
| NetcfgWpa.Recovers | packages/netcfg/wpa.c:316-420 | once everything succeeds, a run that has not given up succeeds too, on the straight way through the states, if it has passed a PING or has one left before the fifth |
| NetcfgWpa.NetworkAddedIff | packages/netcfg/wpa.c:316-420 | in every run that succeeds, ADD_NETWORK was sent since the daemon in use was started iff none was found at the start |
| NetcfgWpa.RestartedWithoutNetwork | packages/netcfg/wpa.c:318-420 | a daemon is found, does not answer the first PING, is replaced, and the run succeeds with the new one, to which no network was added |
| S390Ids.CcwRoundTrip | packages/s390-zfcp/s390-dev.c:22-83 | parsing a printed CCW id gives it back, for all in-range numbers |
| S390Ids.ScanDotted | packages/s390-zfcp/s390-dev.c:22-61 | the scan of three dotted numbers reads exactly their values, and the scan of one number does not take them |
| S390Ids.ZfcpLunParse | packages/s390-zfcp/s390-dev.c:85-154 | cutting the copy in place parses the three pieces with the errors in order |
| S390Ids.CutAtColon | packages/s390-zfcp/s390-dev.c:85-154 | the piece before the first colon is cut off, the rest stays |
| S390Ids.LunRoundTrip | packages/s390-zfcp/s390-dev.c:85-172 | parsing a printed LUN id gives it back, for all 64-bit numbers |
| S390Errors.CcwOfThree | packages/s390-zfcp/s390-dev.c:22-75 | three dotted hexadecimal numbers are an id iff each is in its range; otherwise the first that is not is reported |
| S390Errors.CcwOfOne | packages/s390-zfcp/s390-dev.c:31-43 | a single number is a device number, iff it is in range |
| S390Errors.CcwOfTwo | packages/s390-zfcp/s390-dev.c:44-47 | two dotted numbers are none |
| S390Errors.CcwOfOther | packages/s390-zfcp/s390-dev.c:44-47 | nor is a text that does not begin like a number |
| S390Errors.LunOfThree | packages/s390-zfcp/s390-dev.c:85-154 | two hexadecimal numbers behind a device, with or without prefix, are a LUN id iff the device is one and both have sixteen digits; the first fault is reported |
| S390Errors.LunOfTwo | packages/s390-zfcp/s390-dev.c:101-124 | without two colons it is none |
| S390Ids.ByteSwap | packages/s390-zfcp/s390-dev.c:196-206 | the loop makes the swaps in order |
| S390Ids.SwappedAt | packages/s390-zfcp/s390-dev.c:196-206 | an exchange puts each byte in the place of its partner and moves nothing else |
| S390Ids.SwapTwice | packages/s390-zfcp/s390-dev.c:196-206 | such an exchange undoes itself |
| S390Ids.LunSwapReversesWords | packages/s390-zfcp/s390-dev.c:196-215 | scsi_lun_to_fcp_lun reverses the four 16-bit words and is its own inverse |
| ZfcpConfig.Configurator.SelectPreseeded | packages/s390-zfcp/zfcp-config.c:365-418 | selects the first entry that is not processed and whose device is detected and not configured, and marks only it; finishes only when there is none; an error exactly without any entries |
| ZfcpConfig.Configurator.RemoveConfigFile | packages/s390-zfcp/zfcp-config.c:470-502 | asks iff the device is configured; removes the file only on a confirmed removal; an error only when the file cannot be removed |
| ZfcpConfig.Configurator.EnableHost | packages/s390-zfcp/zfcp-config.c:534-562 | success means online; nothing but online and npiv of the one device changes; a device that is online is left alone, and otherwise the device is set online and its npiv read, with an error exactly where one of the two fails |
| ZfcpConfig.Configurator.AddLun | packages/s390-zfcp/zfcp-config.c:663-700 | success means that the LUN is in the tree, with all that were there; it fails exactly when the LUN cannot be enabled or does not appear in fifteen scans |
| ZfcpConfig.Configurator.AddPreseeded | packages/s390-zfcp/zfcp-config.c:898-946 | without error all entries of the device are processed and their LUNs in the tree; entries of other devices are untouched; an error exactly when something failed |
| ZfcpConfig.Configurator.AddZfcpLuns | packages/s390-zfcp/zfcp-config.c:948-1022 | success means that the device will list all its preseeded LUNs, or none where LUNs are scanned automatically |
| ZfcpConfig.Configurator.WriteConfigFile | packages/s390-zfcp/zfcp-config.c:1033-1074 | the file lists the gathered LUNs and the device is configured, or nothing changes because it cannot be created |
| ZfcpConfig.Configurator.Choose | packages/s390-zfcp/zfcp-config.c:1107-1112 | a selection uses up an entry; FINISH only when every detected device with an entry is configured |
| ZfcpConfig.Configurator.Configure | packages/s390-zfcp/zfcp-config.c:1113-1209 | the steps after a selection lead towards the next one, with the device recorded and no removal asked, or to ERROR exactly when something failed |
| ZfcpConfig.Configurator.Run | packages/s390-zfcp/zfcp-config.c:1102-1209 | a preseeded run halts within one selection per entry plus one, never asks about a removal, loses no configuration, sets each device that it configures online and lists in its file all its preseeded LUNs, or none where LUNs are scanned automatically; it succeeds iff there are entries and nothing that was asked of the system failed, and then every detected device with an entry is configured |
| PkgDetails.FieldCopy | packages/base-installer/pkgdetails.c:40-47 | the two loops give what follows the colon without leading space |
| CText.SkipSpacesMeaning | packages/base-installer/pkgdetails.c:45 | all the white space in front is skipped, and nothing else |
| PkgDetails.ReadLine | packages/base-installer/pkgdetails.c:157-183 | the chain of comparisons classifies a line |
| PkgDetails.Search | packages/base-installer/pkgdetails.c:184-195 | finds the first slot that is not NULL and has the field, and whether any slot is left |
| PkgDetails.Pass.TakePackage | packages/base-installer/pkgdetails.c:160-171 | a new name prints the pending answer and sets its slot to NULL, the same name drops it |
| PkgDetails.Pass.TakeBlank | packages/base-installer/pkgdetails.c:183-197 | a blank line makes the current fields the pending answer of the first open slot |
| PkgDetails.Exhausted | packages/base-installer/pkgdetails.c:195 | leaving the loop when every slot is NULL is the same as reading on |
| PkgDetails.Pass.ReadFile | packages/base-installer/pkgdetails.c:155-203 | the pass over the file prints and closes what the run ends of the file answer |
| PkgDetails.Pass.PrintMissing | packages/base-installer/pkgdetails.c:205-212 | one "name -" line per slot left open, in order |
| PkgDetails.MirrorPackages | packages/base-installer/pkgdetails.c:128-213 | the output of one call is the specified extract of the file |
| PkgDetails.PrintPackages | packages/base-installer/pkgdetails.c:322-328 | the calls of main print the extracts of consecutive chunks |
| PkgDetailsLaws.TakingsOneEach | packages/base-installer/pkgdetails.c:155-203 | no slot is answered twice |
| PkgDetailsLaws.OutputIsLines | packages/base-installer/pkgdetails.c:199-213 | the lines printed are, as a multiset, one line per slot |
| PkgDetailsLaws.ExtractIsOneEach | packages/base-installer/pkgdetails.c:128-213 | for every file and every request list: exactly one line per slot |
| PkgDetailsLaws.TakingMeaning | packages/base-installer/pkgdetails.c:183-197 | a record comes from a blank line of the last segment of a run whose name is the request, or the request is empty |
| PkgDetailsLaws.ItemsAreRuns | packages/base-installer/pkgdetails.c:160-171 | keeping the last segment of each run on the way is picking the run ends of the whole file |
| PkgDetailsLaws.SegmentFields | packages/base-installer/pkgdetails.c:160-171 | a record carries the name of its own segment |
| PkgDetailsLaws.ChunkMeaning | packages/base-installer/pkgdetails.c:322-328 | call q has the arguments from 100 q on, a hundred of them or the rest, in order |
| PkgDetailsLaws.ChunkAt | packages/base-installer/pkgdetails.c:322-328 | each argument is in one call, at its own place |
| PkgDetailsLaws.ChunkedAt | packages/base-installer/pkgdetails.c:322-328 | the whole has, at each argument's place, what its own call gives it there |
| PkgDetailsLaws.AllAnswered | packages/base-installer/pkgdetails.c:322-328 | as many lines as arguments |
| PkgDetailsText.ClassifyField | packages/base-installer/pkgdetails.c:157-183 | a "field: value" line is read as that field with that value, whatever the case |
| PkgDetailsText.SameLetter | packages/base-installer/pkgdetails.c:157-183 | characters are compared up to the case of letters, and only up to that |
| PkgDetailsText.ParseText | packages/base-installer/pkgdetails.c:155-198 | a file of stanzas that set some fields is read as a segment per stanza, with a record exactly where there is a blank line |
| PkgDetailsText.WantedInText | packages/base-installer/pkgdetails.c:128-213 | so the n-th request of a name gets the record of the last stanza of the n-th run of it that has a blank line |
| PkgDetailsText.FieldsAreInherited | packages/base-installer/pkgdetails.c:172-182 | a field that a stanza does not set is that of the nearest earlier stanza that sets it, or what the buffer held |
| PkgDetailsText.RecordIsOwnIff | packages/base-installer/pkgdetails.c:172-190 | a record is what its stanza says iff each field the stanza does not set was last set to nothing |
| PkgDetailsLimits.LastStanzaAnswersIff | packages/base-installer/pkgdetails.c:183-202 | the slot whose turn it is at the last stanza gets its record iff the stanza has its blank line |
| PkgDetailsLimits.OnePackageIff | packages/base-installer/pkgdetails.c:128-213 | for any stanzas of one package: its last record is printed iff the file ends with a blank line, else it is reported missing |
| PkgDetailsLimits.UnclosedPackageIsMissing | packages/base-installer/pkgdetails.c:169-202 | a file of two stanzas, the second without blank line, for which the package is reported missing |
| PkgDetailsLimits.FilenameIsInherited | packages/base-installer/pkgdetails.c:181-190 | a file in which a package is printed with the file name of the one before |
| PkgDetailsLimits.EmptyRequestTakes | packages/base-installer/pkgdetails.c:183-197 | in a file with two blank lines after a package the first empty request takes its record |
| PkgDetailsLimits.FoundPackageIsMissing | packages/base-installer/pkgdetails.c:128-213 | so that the package, when it is requested too, is reported missing |
| PkgDetailsLimits.ExtractIsWantedIff | packages/base-installer/pkgdetails.c:128-213 | for every file each slot gets its wanted line, iff no request is empty |
| PkgDetailsLimits.TakingsMatchIff | packages/base-installer/pkgdetails.c:155-203 | for every file each slot has the answer that is its turn, iff no request is empty |
| PkgDetailsLimits.AllWantedIff | packages/base-installer/pkgdetails.c:322-328 | over all calls of main for every file, iff no argument is empty |
| PkgDetailsWords.RenderedWordsIff | packages/base-installer/pkgdetails.c:190 | splitting a printed line at its blanks gives name, version, architecture, mirror, file name, checksum and size, in this order, iff none of them has a blank |
| PkgDetailsWords.SlotWords | packages/base-installer/pkgdetails.c:155-203 | for a written file: the words of the line wanted for a request whose turn a stanza is are the values that its lines give, or inherit |
| PkgDetailsWords.MissingWords | packages/base-installer/pkgdetails.c:205-212 | those of a request whose turn no stanza is are its name and a dash |
| PkgDetailsWords.PrintedWords | packages/base-installer/pkgdetails.c:322-328 | so main prints such a line for every argument, whatever the chunk it is in |
| PkgDetailsWords.StanzaIsPrinted | packages/base-installer/pkgdetails.c:128-213 | a file with one full stanza and its blank line, literally, and the line that is printed |

## Left out

- libparted: constraint solving, label formats and file-system resizing. It appears as arguments of the commands, restricted to sound tables; moving the extended partition touches no ordinary partition, a partition it creates has the sectors asked for when it says that they meet its constraints, and a table after a successful resize is its own.
- The alignment choice, dump files, FIFOs, process ids, signals and the text printed by parted_server queries beyond the answers of VIRTUAL and IS_CHANGED and the type column.
- Two registry entries sharing one libparted device, and use of a device after CLOSE frees it.
- PartedServer.Server.CommandVirtualResizePartition: the growing loop is given a finite list of libparted answers; a run that needs more ends as "hangs".
- debconf dialogues, menus and progress bars, other than the answers they return.
- C buffer limits and memory: the 64-entry vector of depends_split, lines longer than a buffer, a last line without newline, allocation failure, the double free of nameserver lists.
- UdpkgDependsField.DependsSplit: what happens after the vector has left its array.
- UdpkgStatusFile.ReadBack: for files whose stanzas start with Package and have one Status line; statuses come back as printed and parsed, which is the status itself for one bit per field.
- UdpkgStatusFile.ControlRead: of the fields it reads, only Package, Status and Provides are kept apart; the others are lines that are copied.
- UdpkgInstall.InstalledStanza: of the fields that are printed for a package only Package, Status, Depends and Provides.
- Locale-dependent descriptions and conffile handling in udpkg; what unpacking and configuring do to an installed package beyond its status, and removing, which uses the same lock, read, merge and unlock steps.
- main-menu's choice of the next item and the order of its menu.
- MainMenu.Menu.ConfigPackage: dependencies of virtual packages point at packages that are not virtual, which bounds the recursion.
- NetcfgMask.PreseedGateway: the characters of the text that is left when the interface has the first address.
- The addresses and routes that are set up at the confirmation, and the netmask shown there as text.
- NetcfgMask.MaskFromLength4: lengths above 32, for which the C shifts are undefined.
- NetcfgMask.Reachable6IsInterval: the link-local shortcut is read as on a little-endian machine.
- netcfg's text parsing of addresses, the splitting of nameserver lists, DHCP, wireless scanning and the files that are written in the end.
- NetcfgStatic.Interface.GetStatic: for finite lists of answers; whether a user ever stops answering is not a question of the model.
- NetcfgWpa.WpaSupplicantStart: a connection opened again over an open one leaks its handle; only whether the current handle is open is modelled.
- The user-driven parts of the zfcp configuration, and detection and preseed parsing before the first selection.
- PartedSpec.DeleteRemovesLogical: where libparted has not deleted what it was asked to, the ordinary partitions stay as they are.
- ZfcpConfig.Configurator.AddLun: a SCSI device that has appeared is assumed to stay until it is removed by the program.
- The modes GETDEPS, FIELD, STANZAS and WGET% of pkgdetails.
- choose-mirror, anna, dhcp clients, kbd-chooser, cdrom-checker, partconf and the other packages.
