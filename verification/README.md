# Appytizer: a verified model of publishing

Appytizer serves every folder of a projects directory as a local site `<folder>.test`. Its Engine scans the
folders, issues certificates, stages and activates an nginx configuration, rewrites the hosts file, answers DNS
queries, broadcasts events to its clients and owns the server processes it starts. This project models these
parts in Dafny and proves what they keep when individual steps fail.

The model follows the source's own form: objects that update their fields are classes, loops over lists and
buffers are loops, everything that only computes is a function. What can fail outside the program (a rename, a
write, a store operation, `nginx -t`, a process creation) is a fault parameter of the method concerned, one per
step and, where steps repeat, per hostname or file, so a statement "for all faults" is a statement about every
choice of failing steps. Contracts say exactly
when a call succeeds and what it leaves behind; the lemmas say what that means.

| file | content |
|---|---|
| `Options.dfy`, `Sequences.dfy` | an optional value, and facts about sequences |
| `Labels.dfy` | folder names, `.test` hostnames, certificate file names |
| `SiteRegistry.dfy` | label validation with collisions, the scan, the nginx server blocks |
| `HostsFile.dfy` | the hosts file as text |
| `NginxTree.dfy` | the swap of a staged nginx tree, with undo and crashes |
| `CertificateManager.dfy` | CA, ownership record, trust store, leaf certificates |
| `ConfigStore.dfy` | the settings file |
| `Engine.dfy` | the refresh and `config.set`, over whole runs |
| `Publication.dfy` | agreement of hosts file, DNS and certificate files for one site |
| `Dns.dfy`, `DnsMessage.dfy` | the DNS responder, and a strict reader of RFC 1035 messages |
| `PipeServer.dfy` | event broadcast as an interleaved transition system |
| `PipeHistory.dfy` | what its runs amount to, told from their actions |
| `PipeClient.dfy` | the reconnect loop |
| `Providers.dfy` | version selection and child process ownership |

`dafny verify dfyconfig.toml` checks everything.

## Main results

- **All or nothing.** An activation ends with exactly the staged configuration or exactly the previous one,
  under guards that are necessary and sufficient (`FailureKeepsPreviousExactly`).
- **Crashes.** Every disk between two steps of an activation is one that some choice of faults leaves for good,
  so a crash is a fault followed by a restart. Each still holds a complete configuration, provided a stale backup
  of the root file was removed at the start (`EveryStepIsRecoverable`). A start of the engine without faults
  succeeds from whatever a crash left (`Restart`).
- **Certificates behind the active tree.** Over every run of starts, refreshes, settings changes and CA repairs,
  no state, not even one between two steps, has an active HTTPS block without its certificate and key file
  (`Engine.Run`), provided the blocks that clean-ups left in the staging directory were harmless: each was
  overwritten, or is no HTTPS block, or has its two leaf files there and belongs to a published hostname. For one
  publication this condition is exact (`LeftoversDecideCoverage`, `PublishStaged`), and it can fail
  (`HarmfulLeftover`).
- **From folders to nginx.** After every successful refresh with nginx detected, each folder whose name is a valid label
  and unique up to letter case is served under its hostname from its own path, and nothing else is, exactly if every
  left-over block was overwritten (`FollowingServes`, `ScanIsTableOfFolders`).
- **Agreement.** After an ok response to `config.set` the sites table is that of the new settings; the hosts file
  is the synchronized one as far as it was written; and nginx, where it is detected, runs on what was generated
  from the new settings, exactly if every left-over block was overwritten. After an error the previous settings
  are back in memory, and a recovery without faults succeeds from whatever state the failure left (`SetConfig`,
  `TroubleFreePublishes`, `StoresAgree`). Foreign lines of the hosts file survive every run in which it is written
  to its end (`Engine.Run`).
- **CA ownership.** Over every sequence of certificate calls, failing anywhere, with foreign changes in between,
  at most one CA of Appytizer's own is trusted, the record names it, and no step of the manager touches any other
  certificate in the store (`Manager.Run`, `AtMostOneInstalled`).
- **Events.** Under every interleaving, a client's pipe holds the handler's reply to it followed by a prefix of what was
  enqueued for it, each event broadcast while it was registered; nobody registered misses a broadcast, and nobody is
  ever stuck (`PipeBeginsWithReply`, `PipeIsAnswerThenPrefix`, `PipeCarriesBroadcasts`, `RegisteredClientsAreReached`,
  `NobodyIsStuck`).
- **DNS.** Every response is one complete message, and a query is answered exactly when it is well formed
  (`ResponseIsCompleteMessage`, `AnsweredExactlyWhenWellFormed`).

## Where the code falls short of what one would expect

Each of these is a lemma with a concrete case or an exact condition.

- If removing a stale `nginx.conf.previous` fails and the working file then cannot be backed up, the undo step
  renames the stale file over the working one (`StaleBackupReplacesRoot`; engine/engine.cpp:60, 84, 98).
- If the undo step cannot remove the new sites, they stay beside the old root file (`FailedUndoMixesTrees`;
  engine/engine.cpp:91).
- Recoverability covers one activation. When the next one fails too, it may lose what a crash left only at the
  backup paths, because it removes the backups first (engine/engine.cpp:58-60). From a crash between the two site
  renames all sites are lost; from one after the sites were swapped the old sites are lost and the new ones stay
  beside the old root file; from one between the two root renames the root file is lost (`CrashPoints`,
  `FailureAfterCrashLoses`, `CrashThenFailureLosesSites`). A kept configuration survives exactly under the guards
  of `KeptSurvivesExactly`.
- Only the last of the directory creations decides (`CreateDirectories`; engine/engine.cpp:50-57).
- Files left in the staging directory are activated with the rest, and may then refer to certificates that
  clean-up deletes (`HarmfulLeftover`; engine/engine.cpp:161). They do no harm exactly under the condition of
  `LeftoversDecideCoverage`.
- `config.set` answers ok when nginx is not detected. Sites and hosts then follow the new settings, while nginx
  keeps the configuration of the old ones (`SetConfig`; engine/engine.cpp:155-158).
- A CA that expires between the readiness check and the issue of a leaf is replaced in the middle of the refresh:
  the old one leaves the trust store and the new one is not added (`IssueCertificate`; engine/engine.cpp:142-148,
  engine/tls/certificate_manager.cpp:482-486). If it does not expire, neither the CA nor the store changes
  (`IssueCertificates`).
- Write errors on the hosts file and on the settings file come back as success (`SyncHosts`, `Save`;
  engine/engine.cpp:478-489, common/config.cpp:79-82).
- A `config.set` with an ill-typed parameter is refused, but the parameters in front of it stay assigned
  (`IllTypedRequestChangesConfig`; engine/engine.cpp:403-412).
- A spawn leaks its child exactly when the child can be neither put into the job nor terminated (`Spawn`;
  engine/services/providers.cpp:182).
- A DNS name whose last label contains a dot can be taken for a site although it does not lie under `test`
  (`DottedLabelIsOurs`). The server judges a name right exactly when its last label does not itself end in
  ".test" (`OursExactlyUnderTest`).

## Model

| member | source | states |
|---|---|---|
| `Labels.PublishedExactlyWhenCertifiable` | engine/sites/site_registry.cpp:68-86 | a folder name passes the registry's label check exactly when its hostname passes the certificate manager's independent check, so lowercasing preserves validity |
| `Labels.HostnameKeepsSpelling` | engine/sites/site_registry.cpp:25-30 | a hostname is the folder name with ".test" behind it, character by character up to letter case and without capitals; a folder without capitals is published under its own spelling |
| `Labels.SameHostnameExactly` | engine/sites/site_registry.cpp:131-140 | two folders share a hostname exactly when their names are equal up to letter case, character by character |
| `Labels.ValidHostnameExactly` | engine/tls/certificate_manager.cpp:291-302 | the certificate manager accepts exactly the valid labels without capitals followed by ".test" |
| `Labels.FindFrom` | engine/tls/certificate_manager.cpp:668 | the first occurrence of a pattern, or that there is none |
| `Labels.LeafFilesRecoverHostname` | engine/tls/certificate_manager.cpp:667-672 | the `.test.` search recovers a valid hostname from its certificate and its key file name, so no two hosts share a file |
| `SiteRegistry.ValidWithLower` | engine/sites/site_registry.cpp:97 | a group holds exactly the valid labels of one lowercase form |
| `SiteRegistry.GroupSizeShowsCollision` | engine/sites/site_registry.cpp:100-103 | a group has two members exactly when two positions hold valid labels with the same lowercase form |
| `SiteRegistry.ValidateDnsLabels` | engine/sites/site_registry.cpp:89-110 | a label is flagged exactly when it is invalid or collides, each with the right message |
| `SiteRegistry.FlagCollisions` | engine/sites/site_registry.cpp:100-108 | visiting the groups in any order completes the errors of the first loop |
| `SiteRegistry.ReadFolders` | engine/sites/site_registry.cpp:120-146 | every folder becomes one draft in order, and one inaccessible entry fails the scan |
| `SiteRegistry.ApplyErrors` | engine/sites/site_registry.cpp:157-161 | every site carries the error its name earns among all names |
| `SiteRegistry.Registry.Rescan` | engine/sites/site_registry.cpp:112-195 | succeeds exactly with a database, a readable listing and a working transaction; then the table has one row per folder, in order, with its path, hostname and kind, and no error exactly if the label is valid and no other folder has the same name up to letter case; else it is the old table |
| `SiteRegistry.ScanIsTableOfFolders` | engine/sites/site_registry.cpp:120-161 | the same about the scan itself: every column of every row, from the folder it comes from |
| `SiteRegistry.Registry.Recreate` | engine/sites/site_registry.cpp:50-59 | opening the database drops the table of the previous run |
| `SiteRegistry.ScanIsPublishable` | engine/sites/site_registry.cpp:151-161 | valid sites of a scan have certifiable, pairwise distinct hostnames |
| `SiteRegistry.ConfFilesAreHostnames` | engine/sites/site_registry.cpp:233-238 | the conf files are those of the valid hostnames, and no others |
| `SiteRegistry.OneFilePerHostname` | engine/sites/site_registry.cpp:233-238 | there are as many files as valid hostnames, so none was overwritten |
| `SiteRegistry.ConfFileHoldsItsSite` | engine/sites/site_registry.cpp:242-261 | each valid site has the file of its hostname, and that holds its hostname, its folder as root and the configured protocol; none is overwritten by another site |
| `SiteRegistry.WriteNginxConfigs` | engine/sites/site_registry.cpp:223-275 | succeeds exactly when the directory and every file of a valid site can be written; then the blocks lie over what was there, and every valid site is served from its own folder |
| `SiteRegistry.GeneratedServesFolders` | engine/sites/site_registry.cpp:233-261 | from the folders found to the blocks: every folder with a valid, unique label is served under its hostname from its own path |
| `SiteRegistry.OnlyFoldersServed` | engine/sites/site_registry.cpp:233-261 | and every generated block belongs to such a folder |
| `HostsFile.LinesOfPrint` | engine/engine.cpp:467-484 | printing newline-free lines and reading them back gives the same lines |
| `HostsFile.PrintOfLines` | engine/engine.cpp:466-484 | conversely the lines read from a text are newline-free and, printed, give the text back, closed by a newline |
| `HostsFile.TaggedExactly` | engine/engine.cpp:468 | the line test holds exactly if the eleven characters `# Appytizer` occur at some position |
| `HostsFile.SyncKeepsForeignLines` | engine/engine.cpp:466-485 | after a sync the lines without `# Appytizer` are those before, in order, and the lines with it are exactly the entries of the hostnames |
| `HostsFile.SyncReplacesEntries` | engine/engine.cpp:466-485 | line by line: first all old lines in which `# Appytizer` occurs nowhere, in order, then `127.0.0.1`, hostname and tag for each hostname, and nothing else |
| `HostsFile.LastSyncWinsExactly` | engine/engine.cpp:466-485 | for all texts and both lists, syncing one list and then another equals syncing the second alone exactly when `# Appytizer` occurs in every line of the first entries |
| `HostsFile.LastSyncWins` | engine/engine.cpp:466-485 | that is so for newline-free hostnames; hence idempotence, and removal by the empty list |
| `HostsFile.LineBreakSurvives` | engine/engine.cpp:475 | why newline-free hostnames are needed: an entry with a line break outlives every later sync |
| `HostsFile.PublishableIsPrintable` | engine/engine.cpp:473-476 | the hostnames of every scanned table are newline-free |
| `HostsFile.ReadForeignLines` | engine/engine.cpp:466-472 | the read loop keeps exactly the lines in which `# Appytizer` does not occur |
| `HostsFile.AppendEntries` | engine/engine.cpp:473-477 | the entries of the valid sites follow, in order |
| `HostsFile.Hosts.SyncHosts` | engine/engine.cpp:446-490 | succeeds exactly when the file can be opened both times; then it holds the synced text as far as it was written, whose lines are the foreign ones and the new entries; else it is untouched |
| `NginxTree.SuccessActivatesStaged` | engine/engine.cpp:103-108 | success means the active sites and root are exactly the staged ones |
| `NginxTree.SuccessLeavesBackupsExactly` | engine/engine.cpp:58-107 | a success uses both staging paths up, and leaves a backup exactly if removing it failed |
| `NginxTree.FailureKeepsPreviousExactly` | engine/engine.cpp:41-101 | failure keeps sites and root, including their absence, if and only if the stated guards hold |
| `NginxTree.AllOrNothing` | engine/engine.cpp:41-109 | with working undo steps and no stale root backup the result is the staged or the previous configuration, never a mixture |
| `NginxTree.FaultFreeSucceeds` | engine/engine.cpp:41-109 | without faults a staged configuration gets in from every disk, whatever an earlier crash left |
| `NginxTree.StaleSitesBackupBlocks` | engine/engine.cpp:58-73 | a stale backup of the sites that cannot be removed makes the activation fail, with everything active and staged untouched |
| `NginxTree.StaleBackupReplacesRoot` | engine/engine.cpp:58-101 | with a stale root backup a failed activation can replace the working root file |
| `NginxTree.FailedUndoMixesTrees` | engine/engine.cpp:89-101 | with a failing undo step new sites can stay beside the old root |
| `NginxTree.EveryStepIsRecoverable` | engine/engine.cpp:58-107 | between any two steps only previous and staged blocks are active, and the previous configuration is at its active or backup paths until the staged one is fully active |
| `NginxTree.KeptSurvivesExactly` | engine/engine.cpp:58-101 | from every disk that still keeps a configuration, whatever the crash point, a failing activation keeps it under the stated guards on sites and root, and, if the undo step can remove the new sites, only under them |
| `NginxTree.BackupSitesSurviveExactly` | engine/engine.cpp:58-81 | from every disk a failing activation keeps sites that are only at the backup path exactly if it stops before removing the backups or that removal leaves every file |
| `NginxTree.BackupRootSurvivesExactly` | engine/engine.cpp:60-101 | likewise for the root file when none is active: exactly if it stops before, or the removal of the old backup fails |
| `NginxTree.CrashPoints` | engine/engine.cpp:67-88 | an activation without faults passes through three disks, between and after the renames, that hold part of the old configuration only at the backup paths |
| `NginxTree.FailureAfterCrashLoses` | engine/engine.cpp:58-101 | from each of the three, for every new staging, a failing activation with working undo steps loses the sites, mixes new sites with the old root, or loses the root file |
| `NginxTree.CrashThenFailureLosesSites` | engine/engine.cpp:58-81 | one such case with concrete trees: the only site is gone |
| `NginxTree.NginxData.CreateDirectories` | engine/engine.cpp:50-57 | only the last creation decides |
| `NginxTree.NginxData.Activate` | engine/engine.cpp:41-109 | result and final disk for every choice of failing steps; all or nothing with working undo steps; nothing at the backup and staging paths after a success whose clean-up works; and every disk on the way is one that some faults leave for good |
| `NginxTree.NginxData.SwapSites` | engine/engine.cpp:63-80 | the first half: sites swapped, or put back |
| `NginxTree.NginxData.SwapRoot` | engine/engine.cpp:82-101 | the second half: root swapped, or both undone |
| `NginxTree.NginxData.Undo` | engine/engine.cpp:89-101 | the undo steps lead to the disk the case analysis gives |
| `CertificateManager.ExpiresWithinExactly` | engine/tls/certificate_manager.cpp:335-342 | comparing days and then seconds is comparing seconds, for every sign |
| `CertificateManager.FreshLeafLasts` | engine/tls/certificate_manager.cpp:608-625 | a leaf issued for 397 days counts as valid for the renewal check for exactly 367 days from its issue |
| `CertificateManager.SiteCertificateValidExactly` | engine/tls/certificate_manager.cpp:608-625 | the renewal check accepts exactly a pair of matching files of at least 2048 bits, signed by the CA on disk, for exactly this host, for server authentication, begun, and with more than 30 days left |
| `CertificateManager.ObsoleteExactly` | engine/tls/certificate_manager.cpp:663-679 | for any file name: it is deleted exactly if ".test." occurs in it and what stands before the first of these, with its "test", is no listed hostname |
| `CertificateManager.RetainedPairSurvives` | engine/tls/certificate_manager.cpp:663-679 | clean-up keeps both files of a retained hostname |
| `CertificateManager.OtherHostsUndisturbed` | engine/tls/certificate_manager.cpp:628-647 | issuing one host's leaf leaves the validity of every other as it was |
| `CertificateManager.AtMostOneInstalled` | engine/tls/certificate_manager.cpp:469-606 | at most one installed CA is trusted, and the record names it |
| `CertificateManager.Manager.EnsureCaFiles` | engine/tls/certificate_manager.cpp:469-499 | succeeds exactly as stated; then the CA on disk signs itself with its own key of at least 3072 bits, is unexpired, and both its digests are recorded; a valid CA is never replaced, any other is replaced by one issued now; no other certificate leaves the store; every state on the way is owned |
| `CertificateManager.Manager.ReplaceCa` | engine/tls/certificate_manager.cpp:482-499 | without a valid CA: exact success, the recorded certificate leaves the store before a new CA, issued now, is written and recorded |
| `CertificateManager.Manager.CreateRoot` | engine/tls/certificate_manager.cpp:207-234 | writes key and certificate of a sound CA of Appytizer's name for 3652 days, or fails and leaves record, leaves and store alone |
| `CertificateManager.Manager.InstallTrustEntry` | engine/tls/certificate_manager.cpp:501-523 | adds exactly the recorded CA certificate, once |
| `CertificateManager.Manager.Provision` | engine/tls/certificate_manager.cpp:525-529 | success means a valid, recorded and trusted CA; sufficient and necessary conditions for it |
| `CertificateManager.Manager.RemoveRecordedTrustEntry` | engine/tls/certificate_manager.cpp:552-591 | removes at most what the record names, and on success all of it |
| `CertificateManager.Manager.Remove` | engine/tls/certificate_manager.cpp:593-606 | success leaves no installed CA and no files; certificates the record does not name are never touched |
| `CertificateManager.Manager.CreateLeaf` | engine/tls/certificate_manager.cpp:354-389 | success leaves a matching pair for exactly this host, signed by the key of the CA on disk, valid from now for 397 days; other files stay |
| `CertificateManager.Manager.EnsureSiteCertificate` | engine/tls/certificate_manager.cpp:628-647 | success from any previous leaf files means a pair for exactly this host, signed by the key of the CA now on disk and good for more than 30 days; a pair that is so for this CA stays byte-identical, one that fails any part of it, such as one signed by a replaced CA, is replaced by one issued now; with a valid CA it succeeds exactly as stated |
| `CertificateManager.Manager.RemoveUnusedSiteCertificates` | engine/tls/certificate_manager.cpp:655-681 | success leaves exactly the retained files; a failure deletes nothing retained |
| `CertificateManager.Manager.Status` | engine/tls/certificate_manager.cpp:683-688 | ready exactly with a sound, unexpired CA and its key on disk and that certificate in the store |
| `CertificateManager.Manager.Run` | engine/tls/certificate_manager.cpp:469-681 | ownership holds in every state of every sequence of calls, failing anywhere, with foreign changes in between; every step of the manager removes from the store only what the record names at that step, and adds only the recorded CA on disk |
| `ConfigStore.Store.Save` | common/config.cpp:77-83 | when it succeeds, what a later load returns, and when the old file is lost |
| `ConfigStore.MergeSets` | engine/engine.cpp:402-413 | each setting is the requested one or as before; active versions and service folders are not touched |
| `ConfigStore.IllTypedKeepsConfigExactly` | engine/engine.cpp:401-413 | exactly when a refused ill-typed request leaves the configuration as it was |
| `ConfigStore.IllTypedRequestChangesConfig` | engine/engine.cpp:401-413 | it can change |
| `Engine.LeftoversDecideCoverage` | engine/engine.cpp:159-185 | what is staged is covered after clean-up exactly when the leaf files of every left-over HTTPS block that was not overwritten are there and retained |
| `Engine.LeafStaysExactly` | engine/tls/certificate_manager.cpp:663-679 | for a site hostname that means: it is published and both files are there |
| `Engine.HarmfulLeftover` | engine/engine.cpp:159-185 | a left-over block of a removed site whose certificate is deleted while the active tree refers to it |
| `Engine.StagedServesFolders` | engine/engine.cpp:159-180 | what is staged serves every folder with a valid, unique label from that folder, and nothing else exactly if every left-over was overwritten |
| `Engine.StepsCovered` | engine/engine.cpp:58-107 | with the previous and the staged tree covered, so is every tree between two steps of the swap |
| `Engine.CleanUpKeepsHosts` | engine/engine.cpp:183-185 | clean-up keeps the leaf files of all published hostnames |
| `Engine.StoresAgree` | engine/engine.cpp:208-228 | from a published tree and a synchronized hosts file: conf files, tagged hosts lines and hostnames of valid sites correspond one to one |
| `Engine.SwapOfStaged` | engine/engine.cpp:159-180 | what a staged configuration makes active, and what a failed swap keeps |
| `Engine.TroubleFreePublishes` | engine/engine.cpp:120-187 | with a trusted CA and no faults everything can be published, from whatever an earlier failure left |
| `Engine.IssuingStep` | engine/engine.cpp:147-152 | issuing one leaf changes for no host, at no time the CA is valid, whether its leaf can be issued |
| `Engine.Engine.IssueCertificate` | engine/engine.cpp:148 | with a valid CA it succeeds exactly as stated and keeps CA and store; an expired one is replaced, loses its trust, and nothing is added to the store |
| `Engine.Engine.IssueCertificates` | engine/engine.cpp:141-153 | all pairs are there on success; while the CA does not expire from one call to the next, it succeeds exactly when the CA is ready and every leaf can be issued, and neither CA nor trust store changes |
| `Engine.Engine.Stage` | engine/engine.cpp:159-176 | succeeds exactly as stated; the active configuration is not touched |
| `Engine.Engine.ConfigureNginx` | engine/engine.cpp:120-187 | with a CA that does not expire it succeeds exactly when certificates, staging and swap can; keeps coverage at every step if left-overs are harmless; a failure with working undo steps keeps the active configuration |
| `Engine.Engine.PublishStaged` | engine/engine.cpp:159-186 | succeeds exactly when staging and swap can; the active tree then serves every valid site from its folder, is the generated one exactly if the left-overs were overwritten, and, unless clean-up was stopped, is covered exactly if they were harmless |
| `Engine.Engine.SwapIn` | engine/engine.cpp:177-185 | because leaves are deleted only after the swap, every state on the way stays covered if the left-overs were harmless |
| `Engine.Engine.CleanUp` | engine/engine.cpp:183-185 | coverage is kept at every deletion if the retained files suffice; when nothing stops it, exactly the retained files remain |
| `Engine.Engine.RescanAndRefresh` | engine/engine.cpp:208-228 | with a CA that does not expire it succeeds exactly as stated; on success each store follows under its own condition, nginx only where detected; if publishing fails and can be undone, nginx and hosts stay; foreign hosts lines stay |
| `Engine.Engine.RescanSites` | engine/engine.cpp:335-342 | after an ok answer each store follows: table, hosts file, and with nginx detected one active block per folder with a valid, unique label, rooted in that folder, and no other exactly if the left-overs were overwritten; then conf files, hosts entries and hostnames correspond one to one |
| `Engine.Engine.FollowingStoresAgree` | engine/engine.cpp:208-228 | the same correspondence after any refresh or `config.set` that succeeded |
| `Engine.Engine.FollowingServes` | engine/engine.cpp:208-228 | after any refresh, `config.set` or recovery that succeeded with nginx detected, the active configuration serves the folders found, each from its own path with the configured protocol |
| `Engine.Engine.ScanAndConfigure` | engine/engine.cpp:210-218 | the first half, with the table after it in every case |
| `Engine.Engine.SyncAndRestart` | engine/engine.cpp:219-227 | the second half: exact success, and the hosts text after it in every case |
| `Engine.Engine.ApplySettings` | engine/engine.cpp:402-413 | the request merged over the configuration, or its part before the first ill-typed parameter |
| `Engine.Engine.SetConfig` | engine/engine.cpp:400-438 | exactly when it answers ok; what is then in memory, field by field, on disk, in the table, the hosts file and nginx; an error keeps the previous settings, and nothing ever changes versions or service folders; what a recovery restores, nginx included wherever detected, and that it succeeds without faults; foreign hosts lines stay |
| `Engine.Engine.ActivateAndSave` | engine/engine.cpp:414-422 | refresh and save: exact success, what a later load returns, and when the old settings file is lost |
| `Engine.Engine.ActivateOrRollBack` | engine/engine.cpp:414-437 | the same for the command after its parameters were taken over |
| `Engine.Engine.RollBack` | engine/engine.cpp:415-428 | the stores after the recovery, in terms of those before the failed attempt |
| `Engine.Engine.Recover` | engine/engine.cpp:415-418 | the rollback succeeds whenever nothing fails and the CA was ready before the command; each store then follows the previous settings under its own condition |
| `Engine.Engine.RefreshUnhindered` | engine/engine.cpp:208-228 | a refresh with nothing in its way succeeds from every state |
| `Engine.Engine.WillSucceed` | engine/engine.cpp:208-228 | without faults and with a trusted CA a refresh succeeds from every state |
| `Engine.Engine.Restart` | engine/engine.cpp:238-245 | a start reads the saved settings, or without a readable file no folder, HTTPS on and all else off; it drops the old table and publishes; without faults it succeeds from whatever the run before left |
| `Engine.Engine.ProvisionCa` | engine/main.cpp:132 | provisioning from outside keeps every leaf file and the coverage |
| `Engine.Engine.Run` | engine/engine.cpp:120-187 | over every run, whatever fails and wherever it is cut off, no active HTTPS block lacks its certificate or key file as long as what clean-ups left in staging was harmless; foreign hosts lines survive while the file is written to its end |
| `Publication.HostnameIsAskable` | engine/dns/dns_server.cpp:11-13 | every site hostname is the join of two labels of legal length |
| `Publication.PublishedLeafIsKept` | engine/tls/certificate_manager.cpp:655-681 | clean-up recovers a published hostname from both its file names and keeps both |
| `Publication.HostsLineIsEntry` | engine/engine.cpp:475 | the address of a hosts line is the one of the DNS answer, in dotted decimal |
| `Publication.HostsAndDnsAgree` | engine/dns/dns_server.cpp:14-22 | an A query that spells a published hostname in any mixture of cases has one answer, with the address of its hosts line |
| `Dns.ReadName` | engine/dns/dns_server.cpp:11-13 | the reference reader of a name stays inside the packet and finds labels of 1 to 63 octets |
| `Dns.ReadEncoded` | engine/dns/dns_server.cpp:11-13 | reading at an encoded name gives that name and the offset just past its root octet |
| `Dns.ReadIsEncoded` | engine/dns/dns_server.cpp:11-13 | conversely, what is read was encoded there |
| `Dns.BitTestsAsArithmetic` | engine/dns/dns_server.cpp:12-19 | the bit operations of the source are the comparisons and remainders used here |
| `Dns.DecodeQuestionName` | engine/dns/dns_server.cpp:11-13 | the loop ends on every packet with the dot-joined labels and the offset past them, or with the empty string |
| `Dns.PatchQuery` | engine/dns/dns_server.cpp:18-20 | overwriting bytes of the copied packet assembles the response |
| `Dns.MakeResponse` | engine/dns/dns_server.cpp:14-22 | computes the specified response for every packet |
| `Dns.OursExactlyUnderTest` | engine/dns/dns_server.cpp:9-17 | for every name, the text test agrees with "at least two labels, the last one test, letter by letter in any case" exactly when the last label does not itself end in ".test" |
| `Dns.DotFreeIsOursUnderTest` | engine/dns/dns_server.cpp:9-17 | so for dot-free labels the two always agree |
| `DnsMessage.ResponseIsCompleteMessage` | engine/dns/dns_server.cpp:14-22 | a strict RFC 1035 reader consumes every non-empty response; id and question are the query's, counts match, and the pointer resolves to the question name |
| `DnsMessage.AnsweredExactlyWhenWellFormed` | engine/dns/dns_server.cpp:14-17 | a packet is answered exactly when it has one question with a well-formed, non-empty name, type and class |
| `DnsMessage.TrailingOctetsIgnored` | engine/dns/dns_server.cpp:17-18 | octets after the question never change the response |
| `DnsMessage.OwnNameResolvesToLoopback` | engine/dns/dns_server.cpp:17-20 | an A query for a name taken for the server's own is answered with the loopback address |
| `DnsMessage.SiteResolvesToLoopback` | engine/dns/dns_server.cpp:17-20 | in particular one that spells a site hostname in any mixture of cases |
| `DnsMessage.DottedLabelIsOurs` | engine/dns/dns_server.cpp:9-20 | a packet whose only label is "x.test" is answered with the loopback address although its name does not lie under test |
| `PipeServer.StepKeepsInvariant` | engine/ipc/pipe_server.cpp:33-125 | every atomic step of broadcasters, workers, writers and shutdown keeps the invariant |
| `PipeServer.InvariantOverRuns` | engine/ipc/pipe_server.cpp:33-125 | it holds after every run |
| `PipeServer.PipeIsAnswerThenPrefix` | engine/ipc/pipe_server.cpp:97-117 | a pipe holds nothing, or the answer (which `PipeHistory.PipeBeginsWithReply` ties to the handler) followed by a prefix of the messages enqueued, in order and without repetition |
| `PipeServer.ReachedIsNotLost` | engine/ipc/pipe_server.cpp:57-60 | a message that reached a client is delivered, in flight or queued while its writer lives, and queued if it came before the answer |
| `PipeServer.NothingBeforeRegistration` | engine/ipc/pipe_server.cpp:93-96 | nothing is enqueued before registration |
| `PipeServer.DoneIsDeregistered` | engine/ipc/pipe_server.cpp:98-124 | every exit path deregisters and ends the writer |
| `PipeServer.RegisteredClientsAreReached` | engine/ipc/pipe_server.cpp:53-61 | a client registered when a broadcast begins has its message enqueued exactly once when it is over |
| `PipeServer.SequentialBroadcastsKeepOrder` | engine/ipc/pipe_server.cpp:53-61 | of two broadcasts one after the other, every client gets the first one first |
| `PipeServer.RunsGrow` | engine/ipc/pipe_server.cpp:53-125 | no step shortens a queue's history or a pipe, or changes an audience |
| `PipeHistory.PipeBeginsWithReply` | engine/ipc/pipe_server.cpp:91-98 | over every run, from its list of actions alone: a pipe holds something exactly if the answer was written, and begins with what the handler replied to this client |
| `PipeHistory.RegisteredExactlyIfAskedFor` | engine/ipc/pipe_server.cpp:88-101 | a client registers only if its request asked for events, and always does before it is answered; it is a subscriber exactly from then until its worker withdraws it |
| `PipeHistory.AudienceWasRegistered` | engine/ipc/pipe_server.cpp:53-57 | the audience of a broadcast are clients that had registered, and not withdrawn, when it began |
| `PipeHistory.PipeCarriesBroadcasts` | engine/ipc/pipe_server.cpp:53-117 | behind the reply a pipe carries only events, each followed by a newline and broadcast while the client was registered, and none twice |
| `PipeHistory.SubscriberCanGetEvent` | engine/ipc/pipe_server.cpp:53-117 | for every reply and event there is a run that delivers both, the event broadcast before the answer was written |
| `PipeHistory.NobodyIsStuck` | engine/ipc/pipe_server.cpp:33-125 | after every run a client can take a step exactly if its worker has not ended and it does not wait for events while the server runs |
| `PipeHistory.EverySubscriberIsSignalled` | engine/ipc/pipe_server.cpp:42-49 | whatever happens meanwhile, a shutdown clears the running flag of every client that is subscribed when it looks, before it joins the workers |
| `PipeHistory.FinishedIsQuiet` | engine/ipc/pipe_server.cpp:33-51 | when a shutdown is over nobody is subscribed and every worker and writer has ended |
| `PipeClient.DoublingIsBackoff` | appytizer-ui/ipc/pipe_client.cpp:69 | doubling under the cap is min(200 * 2^k, 5000) |
| `PipeClient.WaitsInMilliseconds` | appytizer-ui/ipc/pipe_client.cpp:61-69 | the waits are 200, 400, 800, 1600 and 3200 milliseconds, then 5000 each |
| `PipeClient.AnnouncementsAlternate` | appytizer-ui/ipc/pipe_client.cpp:59-87 | connected and disconnected strictly alternate |
| `PipeClient.EventsLieInSessions` | appytizer-ui/ipc/pipe_client.cpp:76-81 | every event lies between a connected and the next disconnected |
| `PipeClient.Listener.Listen` | appytizer-ui/ipc/pipe_client.cpp:59-87 | every trace is well formed, with backoff waits, and accounts for every event of every session; before the last turn taken the listener was wanted and no stop signal came, and a last turn before the end lacks one of the two |
| `PipeClient.Listener.Turn` | appytizer-ui/ipc/pipe_client.cpp:63-85 | one turn keeps the relation between delay, announcement flag and trace |
| `PipeClient.Listener.WaitLonger` | appytizer-ui/ipc/pipe_client.cpp:68-69 | the wait has the prescribed length, and so has the next |
| `Providers.PreferredFirstIsStableSort` | engine/services/providers.cpp:133-135 | preferred first, others after: a permutation, ordered, and stable in both classes |
| `Providers.AppendedAreUnique` | engine/services/providers.cpp:136-141 | executable versions are new and pairwise distinct, and no found version is missing |
| `Providers.PreferredCopyIsKept` | engine/services/providers.cpp:131-142 | a version found under the preferred root is kept with a path under it, unless a service has it |
| `Providers.DefaultIsPreferred` | engine/services/providers.cpp:131-142 | without services the default lies under the preferred root as soon as any version does |
| `Providers.ActiveIsLastRunning` | engine/services/providers.cpp:155-158 | a running service behind which no other runs decides the active version; without a running one it stays |
| `Providers.SelectHonoursRequest` | engine/services/providers.cpp:163-167 | selection fails only without versions; of a known version the first entry is taken, never another version |
| `Providers.Provider.Detect` | engine/services/providers.cpp:89-94 | after a detection the services come first, as services and without a path, and only executables follow; active is the last running service, else the version before, else the first one found |
| `Providers.Provider.DetectServices` | engine/services/providers.cpp:143-161 | the loop lists every matching service and remembers the last running one |
| `Providers.Provider.DetectExecutables` | engine/services/providers.cpp:131-142 | the loop appends the sorted executables without repeating a version |
| `Providers.Provider.Spawn` | engine/services/providers.cpp:173-187 | succeeds exactly if no step fails and the child does not exit at once, and then replaces its predecessor, which dies; a failure leaks a child only if it can be neither put into the job nor terminated |
| `Providers.Provider.Start` | engine/services/providers.cpp:95-99 | the requested or default version becomes active, by spawn or service control |
| `Providers.Provider.Stop` | engine/services/providers.cpp:100-118 | exactly when it succeeds, who is alive afterwards, and the reported status; a success leaves no held child alive |
| `Providers.Provider.Restart` | engine/services/providers.cpp:119 | starts only after a successful stop |
| `Providers.Provider.Run` | engine/services/providers.cpp:95-187 | over every sequence of operations at most one child is alive, and it is the held one, unless a spawn leaked |

## Left out

- The FLTK user interface, tray icon, registry autostart, installer and build scripts: presentation and packaging.
- Row order of the site list (`ORDER BY ... COLLATE NOCASE`): the table is kept in scan order, which no property here depends on.
- SQLite beyond "the transaction succeeds or is rolled back": in particular a failing `DELETE` after a successful `BEGIN` leaves a transaction open, and reads of the table are taken as reliable.
- Exceptions of the directory iterator while it advances, and of path and JSON conversions, other than the ill-typed settings.
- `config_` is not locked, so two simultaneous `config.set` calls can interleave; each command and each watcher callback is one step here.
- Launch arguments, default services at start, event publication after a refresh, and the watcher thread.
- Partially written server blocks: a block whose writing failed is left in the staging tree as a whole block.
- The temporary directories and logs under the nginx runtime directory, and leftover `.tmp` files of atomic writes.
- The fallback to the settings file of an older version, and conversions between paths and UTF-8.
- Status text, expiry text and certificate count of the TLS status.
- Key identifiers, key usage and serial numbers of certificates, and OpenSSL's limit of 64 characters on common names, which longer hostnames meet.
- A certificate and key that do not match after a half-failed leaf creation: allowed by the model, repaired by the next issue.
- RFC 1035 limits the responder does not enforce: 255 octets per name, 512 octets per message, the class of a question; and the AA bit it does not set.
- Sockets and their loops; `DisconnectNamedPipe` and partial writes to a pipe appear only as failing writes.
- The pipe server is a transition system rather than code with threads, because its properties are about interleavings; that every shutdown comes to its end (only that it can always go on, `NobodyIsStuck`), and a start after a stop, are not covered.
- The four connection attempts of the client are one attempt with one outcome.
- Members of a child's job other than the child itself, memory figures, registry search, version reading and path canonicalization; "lies under the preferred root" is a parameter.
- Within one call of the certificate manager the time stands still; from call to call it may change at will.
- Engine.Engine.Run: certificate removal from outside (`--remove-tls`) is not among its steps, since it deletes the files the active tree refers to.
- CertificateManager.Manager.Interfere: foreign changes may damage or lose the CA files and change leaves and store at will, but leave the ownership record alone.
