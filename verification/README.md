# wgserver: a verified model of the control plane

wgserver hands out WireGuard peers. Admins and a Telegram bot add rows to an SQLite table; a sync
loop carries the rows into the kernel with `wg set`; an updater replaces the binary. None of these
steps is transactional with the others, and each can fail on its own. The project models that
machinery in Dafny and proves what holds over every run and every pattern of failures.

| file | what it models |
|---|---|
| `text.dfy` | byte order, splitting, decimal digits, sorting of strings |
| `ipam.dfy` | the IP allocator, on four bytes in place |
| `store.dfy` | the three tables, their statements, the claim transaction, the quota ledger |
| `wg.dfy` | `wg set` and the PSK directory |
| `peerlist.dfy` | reading back `wg show <iface> peers` |
| `syncer.dfy` | one sync tick: two passes over listings, any call failing |
| `control.dfy` | all actors interleaved as one step system, with WAL snapshots |
| `handler.dfy` | what the bot does with one update |
| `semver.dfy`, `updater.dfy` | tag order; download, verify, back up, rename, restart, roll back |
| `migrations.dfy` | the forward-only migration runner |
| `bot.dfy` | the `getUpdates` offset protocol |

Code that changes state is a class with methods; each method is proved against a function or
relation on values, and the run theorems are about those; beside it stands what the call does, spelled
out. Which calls fail is a parameter everywhere (`up`, `Fault`, `Plan`, `Faults`, `Calls`, `OpenPlan`,
`Round`), so each outcome is stated exactly: when its cause is there and only then. How much of a file a
failing write leaves, which updates the server answers and in which order keys are listed is left open.
Every state the updater's disk passes through is recorded, so a statement about the record is a
statement about a crash at any point.

## Main results

* **Sync.** A tick acts on each row as a function of that row and its own calls (`TickIsPointwise`).
  It removes exactly the healed rows from the diverged ones (`TickHealsExactly`); one failure-free
  tick reaches agreement and a second one issues no `wg set` (`FlawlessTickConverges`).
* **Disables.** In every reachable state a disabled, synced row has no kernel peer, provided no
  disable falls between a listing that calls the row enabled and its mark (`DisabledStaysOut`). The
  proviso is necessary (`ProvisoIsNecessary`), a run is safe exactly when no mark clears such a
  disable while the kernel holds the peer (`SafeThroughoutExactly`), and a disable once lost is never
  repaired by any number of ticks (`LostDisableIsPermanent`). A disable that is still to be synced when
  an undisturbed, failure-free tick starts takes the peer out of the kernel (`DisableTakesEffect`).
* **Addresses.** The byte loop returns the least address of the block that is not network, broadcast,
  the server's or assigned (`ServerIsSpared`); over all interleavings
  the assigned addresses are the first hosts in order, and an insert succeeds exactly when no row was
  added since its allocation read the table (`InsertSucceedsExactly`).
* **Quota.** Under snapshot isolation `quota_used` equals the user's claims and bot-created peers and
  never exceeds max(0, limit) (`QuotaHolds`, `ClaimsPairOff`).
* **Updates.** Wherever a crash cuts a cycle off, the binary is the original, all of a verified newer
  download, or, after a rollback that had no greatest backup of its own to use, the greatest older
  backup, which an interrupted copy may have left truncated (`Updater.Updater.Check`). Whenever it is
  not the original, the original is completely backed up if `os.Stat` saw it. A rollback restores the
  original exactly when it was seen and no backup has a later name, or the greatest backup already
  held the same bytes (`RollbackRestoresIff`, and the contract of `Check`). Over any run of cycles,
  each cut off anywhere, with a clock that never runs backwards, the installed version never
  decreases (`Updater.Updater.Cycles`, `InstalledNeverDecreases`).
  A cycle ends in each outcome exactly when its cause is there; one that finds a newer release with an
  asset, and in which nothing fails, ends updated or rolled back as the probes say.
* **Small protocols.** Migrations commit once each and in numeric order, and a failure-free open commits
  all that is missing; the bot polls through every error, handles exactly what it is given, each update
  once per process and never again once it is acknowledged; a /start ends in each reply exactly when its
  cause is there (`Handler.HandleUpdate`).

## Where the code and its comments differ

The model follows the code.

* `internal/updater/github.go:92-95` says that on any failure the file at dest is removed. It is gone
  exactly if the `Remove` works and the failure is not that of `Close` (lines 184-186), which skips
  it; a request that never starts leaves whatever was there. `Updater.Updater.DownloadAndVerify` takes
  the failing call as a parameter and states this for every pattern.
* `internal/syncer/loop.go:34-58` promises never to desync silently. `MarkPeerSynced` clears the flag
  unconditionally, so a disable can be lost; see the results on disables.
* A tick does not need the mark to settle a row that the kernel lost and that is not pending
  (`HealsWithoutMark`), so "apply and mark succeed" is not the exact condition; `Heals` is.
* `internal/updater/updater.go:158-162` speaks of a missing binary; in fact any error of `os.Stat`
  skips the backup, hence the parameter `seen`. A later rollback then falls back on an older backup
  (`RollbackCanMiss`), and loses a version exactly if that one is older (`DowngradesExactly`).
* A failed first restart leaves the new binary in place (`Updater.Updater.Activate`).

## Assumptions

A statement of SQLite is atomic and enforces UNIQUE, PRIMARY KEY and FOREIGN KEY; a transaction reads
the snapshot of its first read, and its first write fails if another commit happened since or another
writer is active; no peer row is ever deleted. Generated public keys are base64 text that no foreign
kernel peer uses. The kernel gives each allowed IP to one peer only. Whatever else touches the kernel
may drop any peer and add or change only peers the table does not know. File renames are atomic.
Telegram issues growing positive update ids. Published binaries report the tag they are published
under, and one updater runs at a time. `wg` takes base64 keys only. The clock-dependent results name
the clock condition they need.

## Model

| member | source | states |
|---|---|---|
| Ipam.MaskTestIsInterval | internal/ipam/ipam.go:49-81 | the byte-wise mask test is membership of [base, base + 2^(32-ones) - 1], and base or'ed with the inverted mask is the last address (section 3.1 of RFC 4632) |
| Ipam.BlockFits | internal/ipam/ipam.go:48-49 | a block never runs past the address space, and one that ends at 255.255.255.255 does not hold 0.0.0.0 unless it is /0 |
| Ipam.IncIP | internal/ipam/ipam.go:61-68 | adds one with carry, modulo 2^32, in place |
| Ipam.IsNetworkOrBroadcast | internal/ipam/ipam.go:70-82 | true exactly for the first and the last address of the block |
| Ipam.UsedSet | internal/ipam/ipam.go:39-46 | holds exactly the assigned addresses and the reserved server address |
| Ipam.Allocate | internal/ipam/ipam.go:25-59 | computes Allocation for every block and table within 2^(32-ones) rounds, without touching the block's own bytes; never the server's address; too small iff above /27; on /0 a free host is needed to stop |
| Ipam.ServerIsSpared | internal/ipam/ipam.go:43-58 | with the server's address given as n or n/length: never n, and the answer is the least address strictly inside the block that is neither n nor assigned; Exhausted exactly when there is none |
| Ipam.NoServerConfigured | internal/ipam/ipam.go:43-58 | the same without a server address |
| Ipam.AllocationIsLeast | internal/ipam/ipam.go:48-58 | the answer is the numerically least address that is not network, broadcast, server or assigned; it is Exhausted exactly when there is none |
| Ipam.Pigeonhole | internal/ipam/ipam.go:48-58 | fewer assigned addresses in the block than hosts guarantees success |
| Ipam.RoomForHosts | internal/ipam/ipam.go:30-33 | an accepted block offers at least 2^(32-ones) - 3, hence 29, hosts |
| Ipam.SlashZeroNeverStops | internal/ipam/ipam.go:49-57 | on a full /0 block every candidate, however many rounds have passed, is inside the block and skipped |
| Ipam.HostInjective | internal/ipam/ipam.go:50-56 | two addresses never print alike, so the string lookups are lookups of addresses |
| Ipam.FirstFreeOfSegment | internal/ipam/ipam.go:49-57 | with exactly the first k hosts taken, host k is handed out |
| Store.SelectShape | internal/store/peers.go:106-125 | a listing holds rows that pass its WHERE clause, unchanged, once each, in id order |
| Store.SelectListed | internal/store/peers.go:106-125 | and every row that passes is listed |
| Store.InsertKeepsRowsOK | internal/store/migrations/0001_init.sql:15-20 | an accepted insert keeps ids consecutive and keys and addresses unique over enabled and disabled rows |
| Store.LedgerClaimed | internal/store/telegram.go:83-121 | a granted claim keeps quota_used equal to the claims and claims equal to the bot-created peers, and, if every quota_used was within max(0, limit), keeps that too |
| Store.LedgerUpsert | internal/store/telegram.go:21-36 | an upsert keeps books and bound: a new user starts at zero, an old one keeps quota_used |
| Store.LedgerAdminInsert | internal/store/peers.go:25-42 | an admin's peer leaves the ledger alone |
| Store.LedgerIgnoresFlags | internal/store/peers.go:173-201 | marking and disabling leave the ledger alone; a disable returns no quota |
| Store.ClaimsCount | internal/store/telegram.go:109-121 | a user's claims are as many as the user's peers |
| Store.ClaimsNameRows | internal/store/telegram.go:109-112 | every claim names a row created for its user, no row twice |
| Store.RowHasClaim | internal/store/telegram.go:109-112 | every bot-created row has its claim |
| Store.Database.CreatePeer | internal/store/peers.go:25-42 | appends one pending row or, on a UNIQUE violation or driver error, changes nothing |
| Store.Database.ListPeers | internal/store/peers.go:106-171 | returns the listing of its WHERE clause |
| Store.Database.ListAssignedIPs | internal/store/peers.go:205-223 | returns the addresses of all rows, disabled ones included |
| Store.Database.MarkPeerSynced | internal/store/peers.go:173-186 | clears the flag of that row whatever happened to it meanwhile and changes nothing else; no row is an error |
| Store.Database.DisablePeer | internal/store/peers.go:188-201 | sets both flags of that row whatever they were, keeps its other columns and every other row; no row is an error |
| Store.Database.UpsertTelegramUser | internal/store/telegram.go:21-36 | inserts with quota 0 or updates all but quota_used, column by column; other users stay |
| Store.Database.ClaimPeerForTelegramUser | internal/store/telegram.go:66-127 | on any balanced books, even with a quota above a lowered limit, succeeds exactly when no statement fails, the user exists under the limit, and key and address are new; then it is Claimed, otherwise nothing changed; each error exactly when its cause is there |
| Wg.PskFilePathInjective | internal/wg/iface.go:45-53 | on base64 keys distinct keys get distinct files and the name is one path component (sections 4 and 5 of RFC 4648) |
| Wg.PskFilePathShape | internal/wg/iface.go:50-53 | the path is the directory, a slash, and the key with "/" and "+" replaced character by character |
| Wg.PskFilePathCollides | internal/wg/iface.go:45-53 | outside base64 two keys can share a file |
| Wg.AddEffect | internal/wg/iface.go:20-33 | a successful AddPeer installs exactly the row's address and PSK and takes that address from the other peers, nothing else; a peer is unchanged iff it did not hold the address |
| Wg.FilesFrame | internal/wg/iface.go:20-64 | neither operation touches another key's PSK file, and any file handed to `wg` holds this PSK and a newline at the call |
| Wg.Kernel.WritePSKFile | internal/wg/iface.go:55-64 | writes the PSK line, leaves a first part of it on a failed write, nothing on a failed mkdir |
| Wg.Kernel.AddPeer | internal/wg/iface.go:20-33 | succeeds iff `wg` does and the PSK, if any, was written; then the peer has exactly this address and PSK, its file the PSK line, and no other peer the address; one call is logged |
| Wg.Kernel.RemovePeer | internal/wg/iface.go:37-43 | succeeds iff `wg` does; then the peer and, if it can be unlinked, its file are gone and nothing else |
| PeerList.CurrentWGPeers | internal/syncer/loop.go:133-147 | collects the trimmed nonempty lines |
| PeerList.ParsePrinted | internal/syncer/loop.go:138-145 | any keys in any order, with blank lines and surrounding spaces anywhere, are read back exactly |
| PeerList.AsciiSpaces | internal/syncer/loop.go:140-140 | the ASCII characters that count as white space |
| PeerList.ParseTrimmed | internal/wg/runner.go:42-42 | cutting trailing newlines changes nothing |
| PeerList.ParsePlain | internal/syncer/loop.go:133-147 | the plain listing, down to the empty one, is read back exactly |
| Syncer.AppliedEffect | internal/syncer/loop.go:78-91 | the `wg` half of applyOne changes the row's own kernel peer, and others only by the row's address |
| Syncer.ApplyOneEffect | internal/syncer/loop.go:78-96 | applying one row touches its own flag and kernel peer and nothing else |
| Syncer.PassPointwise | internal/syncer/loop.go:64-69 | a pass over a listing does to each row what PassRow says of it alone, whatever fails elsewhere |
| Syncer.TickIsPointwise | internal/syncer/loop.go:59-127 | RunOnce does to each row what RowTick says of it alone, keeps the invariant, and leaves kernel peers unknown to the table alone |
| Syncer.TickHealsExactly | internal/syncer/loop.go:59-127 | under any failure pattern the diverged rows after a tick are those before less exactly the healed ones, also in number |
| Syncer.HealsWithoutMark | internal/syncer/loop.go:115-123 | a row the kernel lost heals although its mark fails |
| Syncer.ConvergesInBoundedTicks | internal/syncer/loop.go:59-127 | if every tick heals at least one diverged row, as many ticks as there are diverged rows suffice |
| Syncer.FlawlessTickConverges | internal/syncer/loop.go:59-127 | one failure-free RunOnce leaves no row pending and the kernel equal to the enabled rows with address and PSK; the next RunOnce changes nothing and issues no `wg set` |
| Syncer.FlawlessTickRemoves | internal/syncer/loop.go:59-96 | a failure-free RunOnce takes the peer of a disabled, pending row out of the kernel and settles the row |
| Syncer.AgreementIsStable | internal/syncer/loop.go:98-127 | in agreement a tick is the identity, whatever fails |
| Syncer.TickKeepsSafe | internal/syncer/loop.go:59-127 | no undisturbed tick resurrects a disabled, synced row |
| Syncer.LostDisableIsPermanent | internal/syncer/loop.go:59-127 | a disabled, synced row that still has a kernel peer keeps it through any number of ticks |
| Syncer.Loop.ApplyOne | internal/syncer/loop.go:78-96 | changes table and kernel as OneApplied says |
| Syncer.Loop.Show | internal/wg/runner.go:34-43 | one key a line in any order, read back as exactly the kernel's keys |
| Syncer.Loop.Reconcile | internal/syncer/loop.go:102-127 | changes table and kernel as Reconciled says |
| Syncer.Loop.RunOnce | internal/syncer/loop.go:59-76 | changes table and kernel as Tick says; false only if the first listing fails |
| ControlPlane.AllocatesNext | internal/ipam/ipam.go:35-58 | on an initial segment of the hosts Allocate hands out the next host, or none when all are taken |
| ControlPlane.AddressFreeIffNoInsertSince | internal/store/migrations/0001_init.sql:20-20 | an address read with n rows violates UNIQUE exactly when the row count has changed |
| ControlPlane.DbInvKept | internal/store/telegram.go:66-127 | every step of every actor keeps tables, ledger, address order and all open attempts consistent |
| ControlPlane.InvKept | internal/syncer/loop.go:59-127 | every step keeps kernel peers faithful to their rows, PSK files and calls each a row's own, listed copies traceable |
| ControlPlane.ApplyTakesNothing | internal/wg/iface.go:20-43 | no AddPeer takes an assigned address from another row's kernel peer |
| ControlPlane.SafetyLostExactlyBy | internal/store/peers.go:173-174 | from a safe state a step leads to an unsafe one exactly if it marks a row disabled since it was listed while the kernel holds its peer |
| ControlPlane.RespectKeepsCopiesTrue | internal/syncer/loop.go:64-96 | under the proviso copies that say enabled stay true and no mark loses a disable |
| ControlPlane.Reachable | internal/web/handlers.go:124-156 | every state of every run satisfies the whole invariant |
| ControlPlane.DisabledStaysOut | internal/store/peers.go:173-201 | under the proviso, in every reachable state a disabled, synced row has no kernel peer |
| ControlPlane.SafeThroughoutExactly | internal/store/peers.go:173-201 | without the proviso a run is safe throughout iff no step loses a disable |
| ControlPlane.ProvisoIsNecessary | internal/store/peers.go:173-201 | a concrete six-step run, for every block and key, that breaks only the proviso and ends unsafe |
| ControlPlane.WriterHoldsOn | internal/store/telegram.go:66-127 | from its first write until it commits or is dropped, a transaction sees no other commit |
| ControlPlane.CommitGrantsClaim | internal/store/telegram.go:92-126 | the commit turns the tables, as they are then, into those of a granted claim |
| ControlPlane.AcceptedInsertIsCommitted | internal/store/telegram.go:92-126 | over any run a bot's accepted insert, unless dropped, is at its commit exactly one row, one claim and one quota unit more |
| ControlPlane.InsertSucceedsIffNoneSince | internal/web/handlers.go:124-156 | given a new key and no other error, an insert is accepted iff the row count is the one its Allocate saw; an admin's row is then appended at once, a bot's at its commit |
| ControlPlane.AttemptKeepsItsReading | internal/telegram/bot.go:177-190 | an attempt holds on to the address and row count of its Allocate until it writes |
| ControlPlane.InsertSucceedsExactly | internal/telegram/bot.go:177-190 | over any run an attempt's insert is accepted iff no step since its Allocate added a row; an admin's row is there at once, a bot's, undropped, is the one row added by its commit |
| ControlPlane.AllocateOpensAttempt | internal/ipam/ipam.go:35-57 | the step leaves an attempt with the address allocated on the table it read and that table's row count, nothing else |
| ControlPlane.UpsertCommits | internal/store/telegram.go:21-36 | the step commits the sender's columns and keeps quota_used, nothing else |
| ControlPlane.DropAndOutside | internal/store/telegram.go:71-71 | a failed attempt leaves no trace in the tables; outside changes touch only the kernel's peers |
| ControlPlane.DisableDisables | internal/store/peers.go:188-201 | the step sets both flags of its row and changes nothing else |
| ControlPlane.DisableTakesEffect | internal/store/peers.go:188-201 | over any run the row stays disabled; while the disable is to be synced, an undisturbed, failure-free tick takes its key out of the kernel |
| ControlPlane.RowsPersist | internal/store/peers.go:173-201 | over any run rows are never removed, re-enabled or given another key or address |
| ControlPlane.AssignedIsInitialSegment | internal/ipam/ipam.go:35-57 | in every reachable state the assigned addresses are the first hosts in numeric order |
| ControlPlane.QuotaHolds | internal/store/telegram.go:62-127 | for any interleaving of claims, quota_used is the user's claims, the user's peers, and at most max(0, limit) |
| ControlPlane.ClaimsPairOff | internal/store/telegram.go:92-121 | in every reachable state claims and bot-created peers are in bijection |
| ControlPlane.PskFileIsOwn | internal/wg/iface.go:37-64 | in every reachable state a row's PSK file holds that row's line or a first part of it, and no other row shares the path |
| ControlPlane.NoAddressIsTaken | internal/wg/iface.go:20-33 | over any run a row's kernel peer carries that row's address and PSK and is changed by no other row's apply |
| ControlPlane.TickAsSteps | internal/syncer/loop.go:59-127 | an undisturbed RunOnce is a run of syncer steps of the interleaved system |
| ControlPlane.ClaimAsSteps | internal/store/telegram.go:66-127 | the five statements of an undisturbed claim amount to Claimed |
| ControlPlane.KeysReadBack | internal/syncer/loop.go:133-147 | in reachable states every key of the table and of the kernel, foreign ones included, survives printing and parsing, as RunOnce needs |
| Handler.HandleUpdate | internal/telegram/bot.go:142-222 | each reply exactly when its cause is there: ignored iff not a /start in the group, and so on in the order of the code; sent iff nothing fails, a key and an address are there, the key is new and the quota leaves room, and then exactly one peer, one claim and one quota unit were added; without a grant nothing but the upsert is left |
| Handler.ClaimAndSend | internal/telegram/bot.go:183-221 | the part from the claim on, with each outcome and the added row, claim and quota unit spelled out |
| Semver.SemverCompare | internal/updater/github.go:194-216 | computes Compare |
| Text.LessMeans | internal/updater/github.go:222-222 | byte order: the first difference decides, and a proper first part is smaller |
| Semver.LessNumericIsNumeric | internal/updater/github.go:218-223 | on numbers without leading zeros, of any length, the length-then-text test is numeric less-than |
| Semver.LeadingZerosMislead | internal/updater/github.go:209-223 | with a leading zero it is not |
| Semver.CompareIsPrecedence | internal/updater/github.go:194-216 | on vX.Y.Z the comparison is the lexicographic order of the numeric triples (sections 2 and 11 of Semantic Versioning 2.0.0) |
| Semver.FirstDifferenceDecides | internal/updater/github.go:201-214 | on any components the first of the first three that differs decides, by length and then text |
| Semver.NothingElseDecides | internal/updater/github.go:205-215 | if none of them differs the tags compare equal, whatever else they have or lack |
| Semver.TotalOrder | internal/updater/github.go:194-216 | hence antisymmetric, transitive and total |
| Updater.StampOrder | internal/updater/updater.go:157-198 | byte order of the fixed-width UTC names is the order of the times, years 0000 to 9999, and names are distinct |
| Updater.HealthCheck | internal/updater/updater.go:215-243 | nil exactly when some attempt is answered 200 and none before it met an ended context or an unusable request |
| Updater.Disk.CopyFile | internal/updater/updater.go:245-260 | succeeds iff src is there and every call works, and then dst holds all of src; at every moment only dst differs |
| Updater.Disk.GlobBackups | internal/updater/updater.go:189-198 | all backup names, sorted |
| Updater.Disk.Swap | internal/updater/updater.go:167-182 | the binary is at every moment the old file or all of the new one |
| Updater.Disk.Install | internal/updater/updater.go:153-183 | at every moment either the old binary, or all of the new one with, if the old one was seen, a complete backup of it; no other backup is touched |
| Updater.Disk.Rollback | internal/updater/updater.go:188-213 | on success the binary is the greatest-named backup, otherwise unchanged; no backup is touched at any moment |
| Updater.RollbackRestoresIff | internal/updater/updater.go:157-198 | whether or not the binary was seen: rollback restores the pre-cycle bytes iff it was and no backup is named later, or the greatest backup already held the same bytes |
| Updater.RollbackCanMiss | internal/updater/updater.go:162-198 | two inputs on which it does not: a backup from the future, an unseen binary |
| Updater.EarlierBackups | internal/updater/updater.go:157-198 | backups taken at no later time are not named later |
| Updater.EqualFoldMeans | internal/updater/github.go:113-116 | the digest comparison is equality of length and of every character up to ASCII case |
| Updater.SidecarRead | internal/updater/github.go:137-143 | a sidecar in sha256sum's format gives its digest, of 64 characters only |
| Updater.Updater.DownloadAndVerify | internal/updater/github.go:96-118 | verified iff every call works and the digests agree character by character up to ASCII case, and then the whole body is there; after a failure the file is gone iff the Remove works and Close did not fail, or nothing started and nothing was there |
| Updater.Updater.Activate | internal/updater/updater.go:128-147 | each outcome exactly when its cause is there, and which binary is left: updated iff the service comes up after the restart, a failed rollback iff there is no backup or one of its calls fails |
| Updater.Updater.Place | internal/updater/updater.go:113-126 | which stage fails, exactly; if none, the verified download is in place |
| Updater.Updater.Upgrade | internal/updater/updater.go:113-147 | in every state on the way the binary is the original, a verified newer download with the seen original backed up, or the greatest older backup of a rollback without one of its own |
| Updater.Updater.Check | internal/updater/updater.go:57-148 | the same for a whole cycle; each outcome exactly when its cause is there (no update iff the versions compare so or there is no asset), with the final binary for each; nothing failing, a due cycle ends updated or rolled back as the probes say; rolled back, it is the original iff RollbackRestoresIff's condition holds |
| Updater.Updater.CheckCutOff | internal/updater/updater.go:57-148 | one Check cut off in any state it goes through |
| Updater.CycleNeverDowngrades | internal/updater/updater.go:99-104 | in every state of a cycle the installed version is at least the one it found, the clock condition being derived from the times of the backups |
| Updater.DowngradesExactly | internal/updater/updater.go:162-198 | a rollback loses no version iff the binary was seen or the greatest backup is as new |
| Updater.RunKeepsStamps | internal/updater/updater.go:157-166 | along a run every backup keeps a name no later than the clock |
| Updater.InstalledNeverDecreases | internal/updater/updater.go:99-147 | over any run of Checks, each cut off anywhere, with a clock that never runs backwards, the installed version never decreases |
| Updater.Updater.DetectCurrentVersion | cmd/wgserver-updater/main.go:92-108 | the version the installed binary reports, or "dev" |
| Updater.Updater.Cycle | cmd/wgserver-updater/main.go:54-87 | one tick: detection, then a Check cut off anywhere |
| Updater.Updater.Cycles | cmd/wgserver-updater/main.go:54-87 | runs such cycles: reads the installed version, checks, is cut off anywhere; the record of its states is a run, so no later state has an older version |
| Migrations.NameOrderIsNumeric | internal/store/db.go:59-82 | with equal-width numeric prefixes byte order of the names is version order |
| Migrations.AtoiSigns | internal/store/db.go:82-82 | examples of how a version prefix is read, signs and rejects included |
| Migrations.WidthMatters | internal/store/db.go:59-82 | without equal width it is not |
| Migrations.WellNamedIncreasing | internal/store/db.go:59-82 | the sorted list is in strictly increasing version order and complete |
| Migrations.SchemaDb.ApplyMigration | internal/store/db.go:100-120 | succeeds iff no step fails and the version is new; body and version row commit together or not at all |
| Migrations.SchemaDb.Migrate | internal/store/db.go:39-98 | an open applies, in order, what is missing up to the first migration that fails, and succeeds iff none does; any success leaves every version recorded |
| Migrations.SchemaDb.Opens | internal/store/db.go:39-120 | over any number of opens the committed migrations are a first part of the sorted list, each once, in numeric order, and all of it once one open met no failure |
| BotLoop.InvKept | internal/telegram/bot.go:70-96 | arrivals, polls, lost answers, handling and restarts keep the protocol invariant |
| BotLoop.ExactlyOncePerProcess | internal/telegram/bot.go:70-96 | no process handles an update twice, and when it polls it has handled exactly the unacknowledged updates up to its offset |
| BotLoop.AtLeastOnceAcrossProcesses | internal/telegram/bot.go:75-94 | an acknowledged update was handled and is never handled again; a restart begins after the last acknowledged one |
| BotLoop.Server.GetUpdates | internal/telegram/bot.go:75-87 | any answer or error the protocol allows, with updates arriving meanwhile |
| BotLoop.Bot.Run | internal/telegram/bot.go:70-96 | one process polls in every round, through errors, until the context ends or it crashes; it handles exactly the updates it is given, in order; uncut it has handled exactly those up to its offset |

## Left out

- Ipam.Allocate: IPv4 only, and the CIDR arrives parsed; on /0 it needs a free host, because the loop has no end without one.
- Wg.PskFilePathInjective: filepath.Join is concatenation, so the PSK directory is taken in clean form.
- Semver.CompareIsPrecedence: pre-release, short and `git describe` tags, where the comparison is not an order.
- Updater.Disk.GlobBackups: filepath.Glob ignores directory read errors; the listing is taken as complete.
- Updater.StampOrder: times arrive broken down into UTC fields; the calendar is not modelled.
- Migrations.SchemaDb.Migrate: strconv.Atoi's 64-bit range; migration bodies are names whose commits are recorded.
- Row columns without effect here: name, private key, timestamps, the creating admin; nothing acts on expires_at.
- Busy timeouts: a transaction that meets another writer fails, a single statement waits.
- `wg`, systemctl, HTTP, SHA-256 and SQLite themselves: outcomes are parameters or free choices, the digest is a function parameter.
- The texts the bot sends to refuse a /start; the code ignores whether they arrive.
- LatestRelease and FindAsset: their answer is a parameter of Check.
- HTTP and UNIX listeners, routing, templates, sessions, CSRF, bcrypt: plumbing with only easy properties.
- The generated .conf text, which carries no PSK in either caller.
- Timers, tick intervals and goroutine scheduling: any step may come next.
- Handler.HandleUpdate: on /0 it needs a free host, as Ipam.Allocate does, because that loop has no end without one.
- Updater.Updater.Cycles: asks that a binary whose version could be read is also seen by os.Stat; DowngradesExactly says what happens otherwise.
- Updater.Updater.DownloadAndVerify: the empty sidecar URL, which skips verification and which Check never passes.
- The version text is taken as printed by a vX.Y.Z build, or "dev" if it cannot be read.
