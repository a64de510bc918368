# Verified model of a small home router

The router serves boot images over TFTP, leases IPv4 addresses over DHCP, counts
traffic per client with nftables rules, restarts hostapd when it dies, and merges
an operator's extras file into its running configuration. This project models
those parts in Dafny and proves what they keep over whole runs. Check it with
`dafny verify dfyconfig.toml`.

## What is modelled

**TFTP.** `TftpBlocks` cuts a file into numbered blocks; `TftpSender` is the
stop-and-wait sender as a machine over its inputs, twelve tries a message;
`TftpServe` holds the imperative code (the reused buffer, the retry loops, the
16-bit counter, the packet kept for duplicate requests) and proves that its
transcript is exactly the machine's; `TftpArrivals` states which transfers succeed by
the bytes that arrive. `TftpClient` is a client of sections 2, 4 and
6 of RFC 1350 with the options of RFC 2347. `TftpFifo` joins both by channels that
lose and repeat but keep order; `TftpAsync` by channels that also reorder without
bound, with duplicate requests at any moment. `TftpProgress` adds completion: however
much is lost, a transfer goes through while one try of each message does.
`TftpTransfers` interleaves the packet reader with the transfer goroutines over the
shared map of transfers.
`TftpOptions` is the request parser and the acknowledgment printer, `TftpJail` the
confinement to the TFTP root, over directory trees with symbolic links; `TftpAccept`
says which requests it accepts, by lookup and places in the tree.

**DHCP.** `Ipv4` refines the byte-slice address arithmetic to 32-bit integers.
`DhcpPool` is the ring of addresses the cursor walks, for every configured range;
`DhcpLeases` the lease table as a value; `DhcpServer` the server with its maps
updated in place, proved to compute it. `DhcpRuns`, `DhcpFairness` and
`DhcpStability` state theorems about every run of requests, reservation changes,
reaping and clock steps; `DhcpPromises` says when the lease time in a reply is safe
from other clients; `DhcpReservations` follows a reservation, in whatever spelling, to
the answer its client gets.

**Traffic accounting.** `TrafficChains` relates a kernel rule list to the map of
counters it stands for; `TrafficAccounts` keeps unbounded books beside the
accounting steps and proves conservation, monotony and the sampler's bound, and
`TrafficRates` when the sampler is exact; `TrafficMonitor` is the monitor with its queue of rule changes and its loops;
`TrafficLeftovers` has the runs that start with rules an earlier process left behind.

**Reload.** `RouterConfig` is the configuration in memory, with maps as shared
objects, so that cloning matters; `ConfigValues` is its value and what a merge does
to it; `ReloadRuns` has the theorems about sequences of reloads, `ReloadFiles` those
about files that are unreadable, absent or shortened, `ReloadLoaded` those about what a
readable file says; `Reloader` is the reload of the running servers. `MacMaps` treats
maps filled under normalised MAC keys, where the iteration order decides collisions,
`MacSpelling` which spellings of an address normalising identifies; `SmbUsers` is the key that
detects a changed user list.

**hostapd.** `HostapdBackoff` is the restart loop with its amortised bound.

Clock readings, packets, timeouts, file contents, directory trees and what reading
a file gave are parameters of the steps.

## What came out

Each of these is a theorem below; where a promise fails, it is stated exactly when.

- With reordering and duplicate requests a transfer is always faithful exactly up
  to 65536 blocks without option negotiation and 65535 with it; with channels that
  keep order there is no limit.
- The addresses handed out are exactly the configured range when it is in order and
  ends below 255.255.255.255, or is the whole address space; else others are too.
- A client's answer is stable exactly when it has a reservation or its address is
  not reserved for somebody else; a client that held an address before it was
  reserved keeps being answered it, while its lease runs, until the owner asks.
- Replies always promise the full lease time, but a repeated request does not extend
  the lease. In every reachable state with a positive lease time, nobody else is
  answered the address before the promise ends exactly when it is not reserved for
  another client and the reply does not repeat a lease that ends earlier on an address
  of the pool.
- The TFTP root itself is accepted as a request but can never be opened.
- An unreadable extras file does not fall back to the base configuration, although the
  comment at cmd/gokrazy-router/main.go:528-530 says so; the model follows the code. The
  reload is rejected exactly when SMB users were configured at start-up. When it is
  accepted, reservations are those of the base, but with PXE on the boot options are
  those of the base exactly when it says no more than the built-in defaults.
- An extras file that is re-created because it is absent reserves addresses for exactly
  the clients some scope reserved at start-up and those any accepted extras brought
  since, dropped or not.
- Name servers removed from the extras file do not revert, although the comment at
  pkg/config/config.go:351-353 says so, unless the last ones named were those of the base.
- A file made from the configuration and merged back loses nothing, as the comment at
  pkg/config/config.go:331-333 promises, only on conditions: a scope keeps its boot file
  exactly when that is the global one, the boot settings stay exactly when all image keys
  are normal, and a scope's reservations are sure to stay exactly when the file names, for
  addresses of that scope, only what the scope already has under normal keys.
- Counter rules left over from an earlier process stay beside a client's own rule until
  that client first disconnects, so a connected client has one rule exactly when none was
  left for it or it has disconnected since.
- The byte delta behind a rate is exact for a client that was not disconnected exactly
  while its counter does not wrap; for one that was, only when nothing was counted, or
  the counter stood at zero and everything was counted since the last reconnect.
- A transfer completes whenever one of the twelve tries of each message gets through both
  ways; eleven lost tries of every message are survived, twelve of one are not.
- The SMB user key notices every change of a list exactly when no user of it has a colon
  in name or password, among lists without NUL bytes; among all lists, exactly when the
  list is empty or one user without a colon. A password that passes validation may hold
  a colon, and the new list is not validated before it is compared.

## Model

| member | source | states |
|---|---|---|
| TftpBlocks.OnlyLastBlockIsShort | pkg/pxe/pxe.go:322-346 | only the last block is short, possibly empty, for every file and block size |
| TftpBlocks.BlockCountIsDivision | pkg/pxe/pxe.go:322-346 | there are size div blockSize blocks and one more |
| TftpBlocks.BlocksReassemble | pkg/pxe/pxe.go:322-346 | the blocks in order are a prefix of the file, and all of them are the file |
| TftpBlocks.MessagesSurviveTheWire | pkg/pxe/pxe.go:317-336 | the bytes of every message decode to that very message |
| TftpSender.TrafficIsBounded | pkg/pxe/pxe.go:450-471 | at most 12 * (size div blockSize + 1) DATA packets whatever ACKs arrive |
| TftpSender.TrafficBoundIsTight | pkg/pxe/pxe.go:450-471 | for every file, block size and set of options some client makes every block cost twelve packets |
| TftpClient.NextMessageKeepsStep | pkg/pxe/pxe.go:322-346 | a client that takes the next message holds the next prefix of the file and finishes exactly at the last block |
| TftpClient.FinishedHoldsFile | pkg/pxe/pxe.go:340-343 | a client in step that took the last block holds exactly the file |
| TftpFifo.FifoTransferIsCorrect | pkg/pxe/pxe.go:317-347 | for files of any length over lossy, repeating channels that keep order, socket failures included, the client holds a prefix cut at a block boundary, and the whole file if the sender completes, although numbers wrap |
| TftpAsync.UniqueNumbersSuffice | pkg/pxe/pxe.go:308-347 | the same guarantee under unbounded reordering, an OACK phase, duplicate requests and socket failures while block numbers do not repeat |
| TftpAsync.RepeatedNumbersFail | pkg/pxe/pxe.go:308-347 | for every longer file there is a run that completes with a client that does not hold it |
| TftpAsync.FaithfulExactlyWhenNumbersUnique | pkg/pxe/pxe.go:308-347 | every run is faithful if and only if the file has at most 65536 blocks, 65535 with an OACK |
| TftpAsync.TrafficIsBoundedWithRepeats | pkg/pxe/pxe.go:67-83 | a duplicate request costs at most one DATA packet on top of the bound |
| TftpProgress.TransferCompletes | pkg/pxe/pxe.go:450-471 | if for each message, after any events that leave the sender at it, a copy or its ACK in flight gets through, the sender completes and the client holds the file |
| TftpProgress.LossesSurvivedIff | pkg/pxe/pxe.go:455-456 | with k lost tries before one that gets through, for each message of any file, the file arrives for k below twelve, and from twelve on the sender gives up at the first message |
| TftpServe.AckMeansItsNumber | pkg/pxe/pxe.go:485-489 | a datagram is read as the ACK of n exactly when it comes from the client and starts with 0, 4, n div 256, n mod 256 |
| TftpServe.NoiseIff | pkg/pxe/pxe.go:482-487 | a datagram is skipped unread exactly when it comes from elsewhere, is shorter than four bytes or does not start with 0, 4 |
| TftpServe.WaitForAck | pkg/pxe/pxe.go:476-493 | ends with the first arrival that is the awaited ACK, a timeout or an error, by its bytes, leaves the rest unread, and reports it as the machine moves |
| TftpServe.AckedIff | pkg/pxe/pxe.go:476-493 | the wait succeeds exactly when the awaited ACK comes before the first timeout or failure |
| TftpArrivals.AnsweredTransferCompletes | pkg/pxe/pxe.go:306-347 | whatever datagrams and up to eleven timeouts come before the ACK of each message, the transfer completes |
| TftpArrivals.ServeAnsweringClient | pkg/pxe/pxe.go:306-347 | so the program succeeds for every such client, file, block size and set of options |
| TftpServe.SendUntilAcked | pkg/pxe/pxe.go:450-471 | twelve tries of one message, each transmission and outcome as the machine's |
| TftpServe.ReadChunk | pkg/pxe/pxe.go:322-325 | fills the buffer behind the header with the next bytes of the file, and says how many |
| TftpServe.NextPacket | pkg/pxe/pxe.go:322-331 | the reused buffer holds exactly the encoding of the block, number patched in |
| TftpServe.NextNumber | pkg/pxe/pxe.go:345-345 | the 16-bit increment follows the numbering of blocks across the wrap |
| TftpServe.ServeBlock | pkg/pxe/pxe.go:321-346 | one round of the loop ends the transfer at a failing read, a message given up or the last block, and else moves on to the next block |
| TftpServe.SendBlock | pkg/pxe/pxe.go:327-345 | sends the right block, short exactly for the last |
| TftpServe.KeepFirst | pkg/pxe/pxe.go:330-334 | the packet kept for duplicate requests stays the first block when the number is 1 again |
| TftpServe.StreamBlocks | pkg/pxe/pxe.go:317-347 | the block loop ends completed, given up as the machine does, or at a failing read with all earlier blocks sent |
| TftpServe.ServeFile | pkg/pxe/pxe.go:306-347 | the transcript of a whole transfer is the machine's, up to a block that could not be read; if all can be read it succeeds exactly when the arrivals complete the machine; the ready channel is closed exactly once |
| TftpServe.Transfer.SetReady | pkg/pxe/pxe.go:45-54 | only the first call stores a packet and closes the channel |
| TftpServe.Transfer.Abort | pkg/pxe/pxe.go:58-62 | closes the channel if nobody has, and stores nothing |
| TftpTransfers.TransfersAreIsolated | pkg/pxe/pxe.go:226-240 | in every interleaving one live transfer per client and file, a channel closed once, and only first blocks re-sent |
| TftpTransfers.EntriesBelongToTheirTransfer | pkg/pxe/pxe.go:252-254 | a map entry disappears only by the transfer that stored it |
| TftpTransfers.RequestStartsIff | pkg/pxe/pxe.go:226-240 | a request to a free reader starts a transfer of its own exactly when no live one has its key |
| TftpTransfers.DuplicateIsAnswered | pkg/pxe/pxe.go:67-83 | a duplicate is answered with 0, 3, 0, 1 and the start of the file of the live transfer, as soon as its first block is out, or not at all when the wait times out |
| TftpOptions.CString | pkg/pxe/pxe.go:522-529 | splits at the first NUL; without one both results are empty |
| TftpOptions.ParseRRQ | pkg/pxe/pxe.go:506-520 | the parser's loop computes the option map and ends on every byte string |
| TftpOptions.RequestRoundTrip | pkg/pxe/pxe.go:506-520 | a printed request whose names are non-empty and differ in more than case parses back to its file name, mode and options, names in lower case |
| TftpOptions.EmptyNameEnds | pkg/pxe/pxe.go:506-520 | an empty name ends the options, whatever follows |
| TftpOptions.BlockSize | pkg/pxe/pxe.go:282-291 | the block size is never above 1468 or a positive requested size |
| TftpOptions.BlockSizeIs | pkg/pxe/pxe.go:282-291 | 512 without the option or a positive number in it, else the number asked for up to 1468 |
| TftpOptions.BuildOack | pkg/pxe/pxe.go:352-379 | prints the recognised options, or nothing when there are none |
| TftpOptions.AtoiOfItoa | pkg/pxe/pxe.go:358-361 | printed numbers are read back as themselves |
| TftpOptions.OackTellsTheTruth | pkg/pxe/pxe.go:352-379 | the option parser run over the acknowledgment yields exactly the recognised options asked for, with the block size used and the true size |
| TftpJail.WithinRootIsPrefix | pkg/pxe/pxe.go:634-640 | the relative-path test accepts exactly the paths below the root |
| TftpJail.EvalAgreesWithLookup | pkg/pxe/pxe.go:583-590 | a resolved path is free of links and is the very place at which ordinary lookup arrives |
| TftpAccept.FullPathIsLexical | pkg/pxe/pxe.go:576-579 | joining root and image reads them as one path, ".." taking back the component before it |
| TftpAccept.AcceptedIff | pkg/pxe/pxe.go:570-598 | accepted exactly when the image is not absolute, does not climb out as written, lookup finds root and root/img, and the place found lies at or below the root's; which refusal it is else, and what an acceptance names |
| TftpAccept.PlainFileIsServed | pkg/pxe/pxe.go:570-632 | every request that spells the path of a file below the root with no link on it is accepted and opens that file |
| TftpJail.AcceptedMeansInside | pkg/pxe/pxe.go:570-598 | an accepted path is "." or proper components, below the real root, naming what lookup of root/img finds |
| TftpAccept.NothingBelowAFile | pkg/pxe/pxe.go:587-590 | a request that goes on below a file finds nothing |
| TftpJail.OpenBelowIsAt | pkg/pxe/pxe.go:604-632 | the no-follow walk succeeds exactly on proper link-free paths and yields the node at that very place |
| TftpJail.OpenTftpFile | pkg/pxe/pxe.go:604-632 | the loop over directory handles is that walk, each step seeing what its directory holds at that moment |
| TftpJail.OpensWhatLookupFinds | pkg/pxe/pxe.go:570-632 | in an unchanged tree the walk opens exactly what lookup of root/img reaches, except that the root itself cannot be opened |
| TftpJail.WalkUnchanged | pkg/pxe/pxe.go:604-632 | when nothing changes the walk is the one through a fixed tree |
| TftpJail.WalkSucceedsIff | pkg/pxe/pxe.go:604-632 | however the tree changes before and between the calls, the open succeeds exactly when every step meets a proper component that is no link, an entry of the directory opened before |
| TftpJail.SwappedLinkFailsOpen | pkg/pxe/pxe.go:617-620 | a component that is a link when its turn comes makes the open fail |
| Ipv4.IncIP | pkg/dhcp/dhcp.go:485-494 | the carry loop is +1 modulo 2 to the 32 |
| Ipv4.IpGreater | pkg/dhcp/dhcp.go:496-508 | the byte comparison is > on the 32-bit values |
| Mac.NormalizeIdempotent | pkg/dhcp/dhcp.go:175-177 | normalising twice changes nothing more, and the addresses it leaves alone are characterised |
| MacSpelling.SameNormalFormIff | pkg/dhcp/dhcp.go:175-177 | two spellings have one normal form exactly when they are alike up to ASCII case, '-' for ':' and outer blanks |
| MacSpelling.PaddedSpellingNormalises | pkg/dhcp/dhcp.go:175-177 | an address in lower case with colons is what its upper-case, dashed or padded spellings normalise to |
| MacMaps.OneOutcomeIffConsistent | pkg/dhcp/dhcp.go:119-128 | the outcome of filling a map under normalised keys is independent of the iteration order exactly when colliding keys agree |
| DhcpPool.StepWalksRing | pkg/dhcp/dhcp.go:380-384 | the cursor walks the pool one slot at a time, for every range |
| DhcpPool.PoolIsRangeIff | pkg/dhcp/dhcp.go:380-384 | the pool is the configured range exactly when the range is in order and does not end at the top address |
| DhcpLeases.ScanFindsFirstFree | pkg/dhcp/dhcp.go:371-392 | the scan gives the first free address in ring order from the cursor, and none exactly when all are taken |
| DhcpLeases.ReapKeepsUntilEnd | pkg/dhcp/dhcp.go:247-261 | the reaper takes just the leases whose end has passed |
| DhcpLeases.AllocateKeepsCursor | pkg/dhcp/dhcp.go:346-400 | the cursor never leaves the pool |
| DhcpRuns.LeasesAreExclusive | pkg/dhcp/dhcp.go:346-422 | in every reachable state no two clients hold running leases on one address, even with conflicting reservations |
| DhcpRuns.ReapingIsInvisible | pkg/dhcp/dhcp.go:247-261 | runs that differ only in reaping give the same sequence of answers |
| DhcpFairness.MetIsGrantedOrTaken | pkg/dhcp/dhcp.go:371-392 | a probed address was granted, or was leased or reserved |
| DhcpFairness.EveryAddressHasItsTurn | pkg/dhcp/dhcp.go:371-392 | between two scans granting one address, scans probed every address of the pool |
| DhcpStability.AnswerIsStableIff | pkg/dhcp/dhcp.go:346-369 | later answers before expiry are the same exactly when the client has a reservation or the address is not reserved for another |
| DhcpStability.ReservedAddressGivenIff | pkg/dhcp/dhcp.go:346-400 | a client without reservation is answered a reserved address exactly when it still holds it from before |
| DhcpStability.ReservationsAreRespected | pkg/dhcp/dhcp.go:402-414 | from start-up with fixed reservations, no client without one is ever given a reserved address |
| DhcpStability.OfferAndAckAgree | pkg/dhcp/dhcp.go:272-344 | the OFFER and the following ACK name one address whatever others do (sections 3.1 and 4.3.1 of RFC 2131) |
| DhcpStability.RepliesIff | pkg/dhcp/dhcp.go:286-324 | a DISCOVER gets an OFFER and a REQUEST an ACK, with the whole lease time, unless the client has nothing and the pool is full |
| DhcpReservations.HasReservationIff | pkg/dhcp/dhcp.go:114-129 | after setting them, a client has a reservation exactly when some spelling of its address was given an address in the server's subnet |
| DhcpReservations.ReserveThenAllocate | pkg/dhcp/dhcp.go:346-361 | and if its spellings agree, its request is answered that address |
| DhcpPromises.PromiseIsKeptIff | pkg/dhcp/dhcp.go:364-366 | the table keeps a lease as long as the reply promised exactly when no older, shorter lease was repeated |
| DhcpPromises.NewClientsReach | pkg/dhcp/dhcp.go:371-392 | new clients, one after the other, get any free address of the pool to one of them |
| DhcpPromises.PromiseIsSafeIff | pkg/dhcp/dhcp.go:346-400 | nobody else can be answered a promised address before the promise ends exactly when no time is promised, or the address is not reserved for another and the reply repeats no lease that ends earlier on an address of the pool; for owners of reservations and others alike |
| DhcpPromises.PromisesOnRuns | pkg/dhcp/dhcp.go:286-322 | so it is in every state reached from start-up |
| DhcpPromises.PromisesCanOverlap | pkg/dhcp/dhcp.go:364-366 | a run in which the condition fails and two clients are promised one address at the same time |
| DhcpServer.Server.SetReservations | pkg/dhcp/dhcp.go:114-129 | replaces the map by the admitted entries under normalised keys, nothing else |
| DhcpServer.Server.IsLeasedOrReserved | pkg/dhcp/dhcp.go:402-414 | true exactly for addresses reserved or under a running lease |
| DhcpServer.Server.ClearLeasesForIP | pkg/dhcp/dhcp.go:416-422 | removes exactly the leases on the address |
| DhcpServer.Server.ReapExpiredLeases | pkg/dhcp/dhcp.go:237-270 | removes exactly the leases that are over and reports each of them |
| DhcpServer.Server.FindFree | pkg/dhcp/dhcp.go:371-392 | the scan ends within one lap and finds the first free address ahead of the cursor |
| DhcpServer.Server.Allocate | pkg/dhcp/dhcp.go:346-400 | the maps and the cursor become what the allocation of `DhcpLeases` says, and the answer is its answer |
| DhcpServer.Server.SetMacPXEBootFiles | pkg/dhcp/dhcp.go:145-152 | replaces the boot files per client, under normalised keys |
| HostapdBackoff.AccessPoint.Supervise | pkg/wifi/wifi.go:305-361 | the loop's clock, backoff and restarts are those of the recurrence; each crash forgets the clients but for output still to be read |
| HostapdBackoff.CrashForgetsClients | pkg/wifi/wifi.go:335-338 | no client reported before the last crash is listed in the end |
| HostapdBackoff.RestartTakes | pkg/wifi/wifi.go:328-352 | what each restart costs: the run, the pause, one second after a run of ten, and the doubling up to thirty |
| HostapdBackoff.RestartsTakeTime | pkg/wifi/wifi.go:48-54 | n restarts need at least (17n - 30)/3 seconds on every pattern, and the backoff is one of six values |
| HostapdBackoff.BoundIsTight | pkg/wifi/wifi.go:305-361 | the bound is met for every multiple of three restarts |
| TrafficChains.ExtractIPOfTag | pkg/status/status.go:710-719 | a rule's tag gives back its address, and no other address has that tag |
| TrafficChains.TidyDelete | pkg/status/status.go:380-401 | deleting by tag removes one address and the sum read before is its counter |
| TrafficChains.OneRuleEach | pkg/status/status.go:268-310 | a tidy chain has one rule for each address of its map and none for others |
| TrafficAccounts.TotalsAreConserved | pkg/status/status.go:323-356 | on every run the reported total is all that was counted less what came between reading and deleting, to 64 bits |
| TrafficAccounts.BooksGrowByTraffic | pkg/status/status.go:268-310 | what is taken as counted grows by just the bytes and packets that pass while the client has a rule |
| TrafficAccounts.TotalsNeverDecrease | pkg/status/status.go:698-702 | reported totals never go back while they fit 64 bits, and no client is forgotten |
| TrafficAccounts.DeltaIsAtMostCounted | pkg/status/status.go:463-486 | the delta behind a rate is at most the bytes counted since the last sample, through reconnects and wrap-around |
| TrafficRates.DeltaIsExactIff | pkg/status/status.go:463-486 | it is just the bytes counted since then exactly when the counter did not wrap, or after a disconnect in the two cases where nothing can be missed |
| TrafficLeftovers.LeftoversGoAtDisconnect | pkg/status/status.go:163-190 | over any run from chains with any rules in them, a client has the rules left over for it until it first disconnects, and one of its own exactly while connected |
| TrafficLeftovers.OneRuleIff | pkg/status/status.go:268-356 | a connected client has one rule exactly when none was left over for it or it has disconnected since |
| TrafficMonitor.ConnectedHasOneRule | pkg/status/status.go:232-318 | a connected client has one rule in each chain, every other address none |
| TrafficMonitor.Kernel.Flush | pkg/status/status.go:312-314 | queued rule changes take effect in order, on their chain only |
| TrafficMonitor.Monitor.AddClient | pkg/status/status.go:232-318 | rules and entry become those of a connect in both directions, MAC and link as given ("G" for a gateway); history is kept, a connected client is left alone |
| TrafficMonitor.Monitor.ReadAndDeleteRules | pkg/status/status.go:380-401 | returns the sum over the matching rules and queues one deletion for each |
| TrafficMonitor.Monitor.RemoveClient | pkg/status/status.go:323-356 | the counters read go into the history and the rules disappear, in both directions, late traffic being lost |
| TrafficMonitor.Monitor.Pass | pkg/status/status.go:270-310 | packets change only the counters of their client's rules |
| TrafficMonitor.Monitor.Sample | pkg/status/status.go:423-490 | the snapshot has the counters of both directions, each under its own name; a client has a rate exactly when it is in both snapshots and time has passed, each delta from its own direction |
| TrafficMonitor.Monitor.GetStatus | pkg/status/status.go:627-705 | reports every client ever seen with its live counters and history plus live totals |
| ReloadFiles.MadeFileNames | pkg/config/config.go:365-378 | a file made from a configuration names exactly the clients some scope of it reserves |
| ReloadFiles.MadeFileReserves | pkg/config/config.go:365-378 | when several scopes reserve for one client, a made file has what WiFi says, else the flat network, else the last VLAN |
| RouterConfig.CloneStringMap | cmd/gokrazy-router/main.go:651-660 | an equal map of its own, nil for nil |
| RouterConfig.NormalizedCopy | pkg/config/config.go:400-409 | a fresh map with every key normalised |
| RouterConfig.Config.Clone | cmd/gokrazy-router/main.go:635-649 | an equal configuration that shares no map and no VLAN list with the original |
| RouterConfig.Config.MergeReservations | pkg/config/config.go:302-327 | every scope gains exactly the reservations in its subnet, under normalised keys |
| RouterConfig.Config.OverrideAddress | pkg/config/config.go:343-350 | only the first VLAN with the number is changed |
| RouterConfig.Config.ApplyExtras | pkg/config/config.go:298-361 | the configuration becomes one the merge allows, field by field; no scope comes to share a map |
| RouterConfig.Config.ExtrasFromConfig | pkg/config/config.go:365-394 | collects reservations, boot settings and addresses of the configuration |
| RouterConfig.Config.Decode | pkg/config/config.go:236-248 | a configuration with the decoded settings, every scope with a map of its own or none |
| Reloader.TakeSnapshot | cmd/gokrazy-router/main.go:73-101 | the base snapshot keeps the start-up settings while extras are merged into the live configuration |
| Reloader.MergedReservations | cmd/gokrazy-router/main.go:601-610 | base and extras together, extras winning |
| Reloader.ApplyPXEBootOptions | cmd/gokrazy-router/main.go:698-736 | with PXE off nothing changes; else every option is set, defaults included, and per-client files are replaced |
| Reloader.Reloader.CheckRestartRequired | cmd/gokrazy-router/main.go:575-598 | asks for a restart exactly when the extras would move a VLAN or the user keys differ |
| Reloader.Reloader.Reload | cmd/gokrazy-router/main.go:531-571 | a rejected reload changes nothing; an accepted one is a step of `ReloadRuns` on all servers |
| Reloader.Reloader.ReloadAll | cmd/gokrazy-router/main.go:531-571 | the reloads of any sequence of files, one after the other, are a run of `ReloadRuns` that ends in the state of the servers |
| Reloader.StartAndReload | cmd/gokrazy-router/main.go:73-101 | so they are from a decoded configuration on: base and start-up extras are those the theorems about runs assume |
| ReloadRuns.BasisNeverChanges | cmd/gokrazy-router/main.go:531-571 | over any sequence of reloads VLAN addresses, the base snapshot, the PXE switch and default boot file stay |
| ReloadRuns.LastAcceptedDecides | cmd/gokrazy-router/main.go:550-567 | each server's reservations and boot options follow from the base and the last accepted extras |
| ReloadRuns.EarlierReloadsDoNotMatter | cmd/gokrazy-router/main.go:531-571 | two runs with the same last accepted extras leave every server alike when colliding keys agree |
| ReloadRuns.NormalKeysAreDefinite | cmd/gokrazy-router/main.go:601-610 | normalised MAC keys are enough for that |
| ReloadLoaded.LoadedRejectedIff | cmd/gokrazy-router/main.go:575-598 | at any point of a run a readable file is rejected exactly when it gives the first VLAN with a number another address than at start-up or its users have another key; else it is what is applied |
| ReloadLoaded.LoadedReservationsReach | cmd/gokrazy-router/main.go:550-557 | after a run a server has a reservation for a client exactly when its base scope or the last accepted file has one in its subnet under some spelling, and that one if they agree |
| ReloadLoaded.LoadedBootReaches | cmd/gokrazy-router/main.go:698-736 | after a run with PXE on every boot option is that of the last accepted file, or the built-in default where it is silent |
| ReloadLoaded.LoadedImagesReach | cmd/gokrazy-router/main.go:564-567 | the TFTP server has the images and the default image of that file |
| ReloadLoaded.LoadedScopesReach | pkg/config/config.go:298-361 | every scope has gained exactly what the file says for addresses of its network, its boot file, and its name servers if it names any |
| ReloadFiles.FallbackAcceptedIff | cmd/gokrazy-router/main.go:535-546 | a file that is unreadable, or absent and not created, is accepted exactly with an extras path and no SMB users configured at start-up |
| ReloadFiles.FallbackIsBaseIff | cmd/gokrazy-router/main.go:528-562 | at any point of a run, after an accepted fallback every server has the base reservations alone, and with PXE on the boot options of the base exactly when it says no more than the defaults |
| ReloadFiles.RecreatedFileNamesIff | cmd/gokrazy-router/main.go:664-678 | a file made because there was none names a client exactly when some scope did at start-up or any extras accepted since did for an address of the flat network or of a VLAN |
| ReloadFiles.RecreatedFileMovesIff | pkg/config/config.go:389-392 | such a file is rejected over an address exactly when two VLANs share a number but not an address |
| ReloadFiles.RecreatedFileAcceptedIff | cmd/gokrazy-router/main.go:664-678 | and is accepted exactly with a path, no SMB users at start-up and no such VLANs |
| ReloadFiles.DnsRevertsIff | pkg/config/config.go:351-360 | over a run a scope is at its base name servers exactly when start-up left it there and none were named since, or the last ones named are the same |
| ReloadFiles.SeedingKeepsBootFileIff | pkg/config/config.go:328-342 | a file made from the configuration and merged back keeps a scope's boot file exactly when it is the global one, and the name servers always |
| ReloadFiles.SeedingKeepsPxeIff | pkg/config/config.go:334-338 | it keeps the boot settings exactly when all image keys are normal |
| ReloadFiles.SeedingKeepsReservationsIff | pkg/config/config.go:302-327 | in every outcome of the merge a scope's reservations stay exactly when the file names, for its addresses, only entries it already has under normal keys |
| SmbUsers.ValidateUser | pkg/smb/smb.go:277-293 | accepts exactly a simple name with a non-empty password of at most 128 bytes without control characters |
| SmbUsers.LeIsByteOrder | cmd/gokrazy-router/main.go:629-629 | parts are compared byte by byte, a prefix first |
| SmbUsers.SortIsCanonical | cmd/gokrazy-router/main.go:629-629 | sorting forgets the order and nothing else |
| SmbUsers.JoinInjective | cmd/gokrazy-router/main.go:630-630 | joined with NUL, non-empty NUL-free parts can be told apart again |
| SmbUsers.SmbUsersKey | cmd/gokrazy-router/main.go:624-631 | the loop, sort and join compute the key |
| SmbUsers.KeyIsMultiset | cmd/gokrazy-router/main.go:620-631 | for two lists without colons in names and without NULs, keys are equal exactly when the lists are the same multiset |
| SmbUsers.ValidKeysAreMultisets | cmd/gokrazy-router/main.go:620-631 | in particular for lists the SMB server accepts |
| SmbUsers.ChangesAreNoticedIff | cmd/gokrazy-router/main.go:594-596 | every change of a NUL-free list to another one is noticed exactly when no user of it has a colon in name or password |
| SmbUsers.KeyIsUniqueIff | cmd/gokrazy-router/main.go:594-596 | over all lists whatever, the key tells a list from every other exactly when it is empty or holds one user without a colon |
| SmbUsers.ColonHidesChange | cmd/gokrazy-router/main.go:594-596 | any list with a colon in some entry has the key of a different list |

## Left out

- TftpServe.ReadChunk: a read of a regular file that does not fail is taken to fill the buffer unless the file ends; the file does not change during its transfer.
- TftpServe.ServeFile: the failures before the transfer socket is opened only send an error packet and are left out.
- TftpServe.SendUntilAcked: a failing write is modelled as a connection on which the next read fails, since both end the transfer.
- TftpOptions.ParseRRQ: lower-casing is that of ASCII letters, and only the option values' decimal syntax of strconv.Atoi is read.
- TftpJail.SwappedLinkFailsOpen: components of the root's own path may be swapped for links; only components below the root are opened without following links, as in the code.
- Mac.NormalizeIdempotent: strings are sequences of bytes; blanks and capitals outside ASCII are not folded.
- DhcpServer.Server.SetReservations: address strings arrive parsed, and the subnet is given by its size; keys that collide are resolved by the map's order, which is left open.
- DhcpServer.Server.Allocate: one clock reading serves a whole call, where the code reads the clock again in the scan; the callbacks on a grant are left out.
- HostapdBackoff.AccessPoint.Supervise: what hostapd's output says of clients arrives as maps, one for the time before the list is cleared and one for the rest.
- TrafficMonitor.Monitor.RemoveClient: traffic between the reading of the first and the second chain is a separate step; kernel calls and flushes are taken to succeed; rules are deleted by tag rather than by handle.
- TrafficMonitor.ConnectedHasOneRule: the chains are empty at start; the code neither flushes nor deletes them, so rules left over from an earlier process stay beside the new ones until the client disconnects (`TrafficLeftovers.LeftoversGoAtDisconnect`).
- TrafficMonitor.Monitor.Sample: rates are left as integer deltas and the elapsed time; the division is floating point.
- TrafficMonitor.Monitor.GetStatus: times of first and last sighting, WiFi link data and interface totals of a report are not part of this model.
- RouterConfig.Config.ApplyExtras: fields of the configuration that neither a reload nor a merge touches are not part of this model; address parsing and subnet tests are parameters.
- Reloader.Reloader.Reload: decoding the file, and that a file is saved when one is created, are inputs of the step; the environment expansion and per-scope boot overrides of start-up are not modelled.
- SmbUsers.SmbUsersKey: sorting is an insertion sort by byte order, standing for the library's.
- Removal by MAC address and expiry callbacks into the monitor: they look an address up and call RemoveClient later, possibly after a new grant, so nothing is claimed of them.
- Image name clean-up and lookup per client (`sanitizeTFTPName`, `resolveImage`), boot-file precedence in DHCP replies: settled by reading one expression.
- Sockets, netlink, nftables wire format, mounts, processes, HTTP, templates, logging: input and output.
- NAT, VLAN and network set-up, the MAC map and the command-line client: straight-line calls or easy lookups.
