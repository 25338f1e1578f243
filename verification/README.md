# awl: a verified model of the mesh VPN core

awl connects machines into a virtual private network over libp2p. This project models the parts
where its state is most entangled, and proves what they keep over every input, run and
interleaving:

- **The tunnel** (`service/tunnel.go`, `vpn/vpn.go`): the two indexes of peers (by peer id and by
  virtual address), refreshed from the configuration; the delivery of TUN packets to outbound
  channels; and a step system of all goroutines with the read/write lock, the bounded channels, the
  closing of peers and the shared packet pool (`TunnelIndex`, `Routing`, `LostRoutes`, `RoutedRuns`, `Tunnel`,
  `TunDelivery`, `DeliveredRuns`, `TunnelSteps`, `TunnelTraffic`, `ChannelSafety`, `DrainedPeers`, `PacketLedger`,
  `DoubleReturn`, `InboundBatch`, `OutboundStream`, `OutboundTurns`).
- **The friend and status protocol** (`service/auth_status.go` with the config maps and the API
  handlers): any number of honest nodes, messages that may be delayed, reordered, repeated or lost,
  restarts, and user actions at any time (`NodeState`, `PeerRecords`, `Friends`, `Consent`,
  `StatusExchange`, `StatusRuns`, `StatusTalks`, `Blocking`, `Friendship`, `Requests`, `ExitGrants`,
  `ConfigEvents`, `ExitNode`, `Registry`, `AuthStatus`).
- **Framing** of packets on a stream that returns any chunk sizes (`Framing`).
- **Packets**: parsing and checksum rewriting in the packet's own buffer (`Checksum`, `Packet`, `PacketLayout`, `DeviceWrite`), with
  ones' complement sums as in section 1 of RFC 1071, the IPv4 header of section 3.1 of RFC 791, the
  TCP pseudo-header of section 3.1 of RFC 9293 and the "Fields" part of RFC 768.
- **The ring buffer** of the log (`RingBuffer`).
- **Addresses and aliases**: the subnet, the address generator, alias generation, and the repair of
  a loaded configuration (`Bits`, `Addressing`, `AddressPool`, `Counting`, `Aliases`, `ConfigRepair`).

Each imperative part is a class or a method with loops whose contract ties the new state to a
function of the old one; what the system promises is then proved about those functions, usually by
induction over runs. Map iteration takes an arbitrary order everywhere. Network operations, parse
results, connectivity and clocks are inputs of the steps.

## Results that need a condition

Some intended properties hold only under a condition. The model keeps the code's behaviour, and each
condition is stated exactly.

- From indexes in bijection a refresh synchronises them for every iteration order if and only if the
  configured addresses are distinct and no new or moved peer takes an address that another tunnel peer
  held before (`Routing.RefreshIsRightExactlyWhen`). Otherwise a route is lost, because routes are
  deleted by address; and a peer that lost its route stays unroutable through all later refreshes while
  it keeps its address (`LostRoutes.LostStaysLost`). `LostRoutes.SyncExactlyWhen` gives the exact
  condition from every state the tunnel can be in. Along every run in which each checked change has its
  own refresh and no generated address is taken already, nothing is lost (`RoutedRuns.RunStaysSynced`).
- An inbound batch is returned to the pool exactly once if and only if the packets that fail to parse
  come last (`InboundBatch.ReturnedOnceIff`). The pool is shared with the outbound side, so in a run
  every packet is in exactly one place if and only if all inbound batches were of that form
  (`PacketLedger.RunConservesIff`); `DoubleReturn.SamePacketInTwoSlots` reaches a state that is not.
- A choice of exit node that is backed by permission stays so through a serialized history if and only if
  the peer is never added while it is the chosen one (`ExitNode.AlwaysPermittedExactlyWhen`). Removing a peer
  leaves it chosen, so choosing, removing and adding it again breaks the property
  (`ExitNode.RemovedAndAddedAgain`). A settings change reads its record before it takes the lock; no
  interleaving of other changes can make its write break the permission if and only if the record
  carried the permission when it was read (`ExitNode.SettingsChangeSafeExactlyWhen`).
- A chosen peer that has not declined us stays so along a history if and only if no declined peer with an
  old permission is chosen and no friend request to the chosen peer is declined
  (`ExitNode.NeverDeclinedExactlyWhen`). A declining status leaves the permission as it was, so such a
  peer can be chosen and used (`ExitNode.DeclinedCanBeChosen`).
- A blocked peer gets nothing but refusals, in every run in which it is not added again, if and only if
  no status stream of it was being served when it was blocked (`Blocking.RefusedExactlyWhen`). A handler
  that looked the peer up before the block answers in full (`Blocking.OpenStreamLeaks`).
- As long as the user does not alter a peer, it is told our current exit-node permission or refused, in
  every run, if and only if no goroutine carries a copy of its record with another setting that it will
  still send (`ExitGrants.ToldSettingExactlyWhen`). Every change starts an exchange with a copy of the
  record, so a peer can be told that it may use us after the permission was revoked
  (`ExitGrants.RevokedAndToldOtherwise`).
- A peer is never asked for friendship without an invitation, across any restarts, if and only if it has
  confirmed or declined, or is unknown, and no request to it is outstanding or about to be sent
  (`Requests.NeverAskedExactlyWhen`). A refusal that arrives as a status leaves an outstanding request,
  so such a peer can be asked once more (`Requests.DeclinedCanBeAsked`).
- Automatic acceptance adds a stranger if and only if the alias made from its name is free once trimmed
  (`Friendship.AutoAcceptExactlyWhen`). The alias is made unique before it is trimmed, so a name that
  differs from an alias in use only by white space is dropped (`Friendship.SpacedNameIsNotAccepted`).
- Adding a peer without a given address keeps addresses distinct and inside the subnet if and only if
  the generator has room (`RegistryInvariant.AddIsSoundExactlyWhen`); in a full subnet it hands out one
  address again and again (`RegistryInvariant.FullSubnetRepeats`). The repair of a loaded configuration
  gives as many peers proper addresses as there is room for, and all others one and the same
  (`ConfigRepair.SetDefaults`, `ConfigRepair.GivenSoundExactlyWhen`).
- With `h` bytes added to each packet, limited streams stay within 20 MiB in every run if and only if
  packets are at most 3501 - `h` bytes long (`OutboundStream.WithinLimitExactlyWhen`). Payload alone
  fits for every packet up to the MTU of 3500; with the 8-byte length headers of the wire only packets
  up to 3493 bytes do (`OutboundStream.WireBytesFitExactlyWhen`).
- A known peer can be reached by unicast if and only if its address is valid and is neither the subnet's
  broadcast address nor 255.255.255.255 (`DeliveredRuns.ReachableExactlyWhen`); the address generator
  can hand out the broadcast address as the last one of the subnet.

## Model

| member | source | states |
|---|---|---|
| `ChannelSafety.RunIsSafe` | service/tunnel.go:93-229 | In every state of every interleaving of stream handlers, TUN reads, refreshes, closes and background goroutines: nothing was sent on a closed channel, no channel was closed twice, every route leads to a live peer with exactly that address, and a peer someone is about to send to is open |
| `ChannelSafety.StepKeepsSafe` | service/tunnel.go:93-295 | Each single step of any goroutine keeps that invariant |
| `ChannelSafety.ReaderKeepsSafe` | service/tunnel.go:183-229 | The TUN reader, which looks up and sends under the read lock, never reaches a closed channel |
| `ChannelSafety.HandlerKeepsSafe` | service/tunnel.go:93-108 | A stream handler that looks its peer up under the read lock never reaches a closed channel |
| `ChannelSafety.RefreshKeepsSafe` | service/tunnel.go:118-152 | Adding or moving a peer under the write lock keeps every peer of the index open and disturbs nobody who reads |
| `ChannelSafety.ClosingKeepsSafe` | service/tunnel.go:285-288 | Closing one peer closes each channel for the first time and leaves every other peer open |
| `ChannelSafety.ForgetKeepsSafe` | service/tunnel.go:160-163 | Removing the closed peer from both indexes leaves only open peers in them |
| `ChannelSafety.NobodyReads` | service/tunnel.go:113-114 | While the write lock is held no goroutine holds the read lock or a captured peer |
| `DrainedPeers.NothingIsStranded` | service/tunnel.go:285-295 | In every run a packet that waits in a queue waits for a peer that is still in the index: what is closed has been drained and stays empty |
| `DrainedPeers.RunIsSettled` | service/tunnel.go:160-164 | In every run each peer object is either the one in the index or closed on both channels with empty queues |
| `DrainedPeers.ForgetKeepsSettled` | service/tunnel.go:285-295 | When a peer leaves the index both its channels are closed and drained, although senders take from them at the same time |
| `PacketLedger.RunConservesIff` | vpn/vpn.go:66-73 | In all states of a run every packet object is in exactly one of pool, reader slot, broadcast copy, stream handler, peer queue, sender batch and inbound batch, if and only if every inbound batch of the run failed to parse only at its end |
| `PacketLedger.RunConserves` | service/tunnel.go:190-229 | As long as inbound batches were of that form, packets are conserved through broadcasts, full queues, disconnected peers, send errors and the drain racing the senders |
| `PacketLedger.StepConservesIff` | service/tunnel.go:421-456 | From a conserved state, a step of any goroutine conserves packets if and only if it is not the return of an inbound batch with a valid packet after an invalid one |
| `PacketLedger.FirstDisorderBreaks` | service/tunnel.go:421-456 | The first batch of a run that is not of that form leaves some packet twice in the pool |
| `PacketLedger.PeerStepAdds` | service/tunnel.go:359-397 | A batch step of a sender or an inbound handler changes the number of references to a packet by exactly the doubled returns, and senders double nothing |
| `PacketLedger.PeerBalance` | service/tunnel.go:460-477 | Receiving into a batch and clearing a batch move packets between queue, batch and pool without loss |
| `PacketLedger.DrainKeeps` | service/tunnel.go:289-294 | The drain of a closed channel returns to the pool exactly what it takes from the queue |
| `PacketLedger.ForwardedKeeps` | service/tunnel.go:218-228 | A packet read from the TUN device is afterwards either in the peer's channel or still in its slot, never both |
| `PacketLedger.CopyForwardedKeeps` | service/tunnel.go:205-212 | A broadcast copy is afterwards either in the channel or back in the pool |
| `PacketLedger.DeliveredKeeps` | service/tunnel.go:101-107 | A received packet is afterwards either in the inbound channel or back in the pool |
| `PacketLedger.ReaderKeeps` | vpn/vpn.go:173-199 | Filling empty slots from the pool, rejecting unparsable packets and forwarding keep every packet in one place |
| `PacketLedger.PeersShareNothing` | service/tunnel.go:251-259 | While packets are conserved, two peer objects never hold the same packet, and what a peer holds is not in the pool |
| `TunnelTraffic.FirstInFirstOut` | service/tunnel.go:93-477 | In every run of all goroutines, for each channel of each peer: everything ever sent on it is everything ever taken from it by senders, inbound handler and drain, in the same order, followed by what is waiting; nothing is lost, repeated or overtaken |
| `TunnelTraffic.StepMoves` | service/tunnel.go:93-477 | One step of any goroutine takes at most the first packet of a queue and adds at most one at its end, and adds it only to an open channel with fewer than 2000 waiting |
| `TunnelTraffic.QueuesAreBounded` | service/tunnel.go:261-275 | In every run at most 2000 packets wait in a channel |
| `TunnelTraffic.BatchesAreBounded` | service/tunnel.go:460-477 | In every run a sender holds at most 100 packets |
| `TunnelTraffic.TakenBy` | service/tunnel.go:460-477 | A sender that receives `m` packets gets the first `m` of the queue, in order |
| `TunnelTraffic.PacketReachesPeer` | service/tunnel.go:182-229 | A packet in a slot of the idle reader can reach the end of the queue of the peer its address leads to if fewer than 2000 wait there, stays in its slot otherwise, and nothing else changes |
| `TunnelTraffic.CopyReachesPeer` | service/tunnel.go:196-216 | The same for the copy of a broadcast, which otherwise is in the pool again |
| `TunnelTraffic.StreamDelivers` | service/tunnel.go:93-108 | A packet received on a stream of a known peer can reach the end of its inbound queue if there is room, goes back to the pool otherwise, and nothing else changes |
| `TunnelTraffic.PeerIsAdded` | service/tunnel.go:118-152 | A new known peer gets an object with open, empty channels and a route to it |
| `TunnelTraffic.PeerIsClosed` | service/tunnel.go:160-164 | A peer can be closed from any queues: both indexes lose it, its channels are closed and empty, and exactly its queued packets are in the pool |
| `TunnelTraffic.HeldPacketReturns` | vpn/vpn.go:66-73 | A packet held by the reader or by a stream handler can go back to the pool without any other change |
| `DoubleReturn.SamePacketInTwoSlots` | service/tunnel.go:421-456 | Whatever the parser, an invalid packet followed by a valid one in one batch can lead to a state in which two slots of the TUN reader hold the same packet object |
| `DoubleReturn.ReturnsTwice` | service/tunnel.go:424-456 | Such a batch returns the invalid packet once and the valid one twice |
| `TunDelivery.Outbound.HandleReadPackets` | service/tunnel.go:182-230 | One call, while senders receive at any time: every routed peer is offered, in order, the packets for its own address and a copy of each broadcast while it is connected, and its channel accepts each offer for which there is room at that moment; no other channel changes; exactly the slots whose own packet was accepted are empty; a closed tunnel does nothing |
| `TunDelivery.Net.SentIffGone` | service/tunnel.go:223-228 | After a call a packet itself went into some channel if and only if its slot was emptied |
| `TunDelivery.Net.SentMeansGone` | service/tunnel.go:218-228 | What is new in a channel came from a slot whose destination is the route to that channel |
| `TunDelivery.Net.GoesWhere` | service/tunnel.go:190-229 | For every slot and every routed peer: a copy goes into the channel if and only if the destination is the broadcast address of the subnet or 255.255.255.255, the peer is connected and there is room in its turn; the packet itself if and only if the destination is the address of the peer and neither of those two, and there is room |
| `TunDelivery.ArrivesInOrder` | service/tunnel.go:190-229 | What a call adds to a channel comes in the order of the slots, at most one entry for each slot |
| `TunDelivery.EmptiedIffSent` | service/tunnel.go:223-228 | After a call a slot is empty if and only if it was before or its packet is in some channel, and otherwise as it was |
| `TunDelivery.FedAccepts` | service/tunnel.go:223-228 | Whatever the senders receive in between, all that ever went into a channel grows by exactly the accepted offers, in order, and never more than the capacity waits |
| `TunDelivery.FedAlone` | service/tunnel.go:208-212 | While nobody receives, a channel takes the offers that fit its free room and drops the rest |
| `DeliveredRuns.UnicastIsAScan` | service/tunnel.go:190-229 | Along every run of checked config changes and refreshes, a TUN packet goes into the channel of a peer if and only if a scan of the configuration finds that peer under its destination, the destination is not a broadcast address, and the channel has room in its turn |
| `DeliveredRuns.ReachableExactlyWhen` | service/tunnel.go:196-221 | Along every such run some packet can reach a known peer by unicast if and only if its address is valid and neither of the two broadcast addresses |
| `TunDelivery.Outbound.Broadcast` | service/tunnel.go:196-216 | Whatever the order of the route table, each connected peer is offered one copy and no other peer anything |
| `TunDelivery.Outbound.Unicast` | service/tunnel.go:218-228 | A unicast packet is offered to the peer of its address only, and leaves its slot exactly if the channel has room when its turn comes |
| `TunDelivery.RoutesDiffer` | service/tunnel.go:218-221 | Two routes never lead to the same peer object |
| `Routing.RefreshIsRightExactlyWhen` | service/tunnel.go:112-165 | From indexes in bijection: for every iteration order a refresh leaves them in bijection with every validly addressed known peer routable and nobody else, if and only if configured addresses are distinct and no new or moved peer takes an address another tunnel peer held |
| `Routing.RefreshSucceeds` | service/tunnel.go:118-164 | The sufficient direction, for each pair of iteration orders |
| `Routing.TakeoverFails` | service/tunnel.go:134-163 | If an address passes from one peer to another in one refresh, some iteration order leaves the indexes out of step with the configuration |
| `Routing.MovedHolderTakesRoute` | service/tunnel.go:134-140 | If the new holder is visited before the old one moves away, the route is deleted |
| `Routing.DroppedTakesRoute` | service/tunnel.go:155-164 | Closing an unknown peer deletes the route of its address, whoever has it |
| `Routing.SharedAddressFails` | service/tunnel.go:147-151 | Two known peers with one address are never both routable |
| `Routing.UpsertKeepsBijection` | service/tunnel.go:118-152 | Adding or moving a peer to an address nobody else has keeps the bijection and gives it that address |
| `Routing.DropKeepsBijection` | service/tunnel.go:160-163 | Closing a peer keeps the bijection |
| `LostRoutes.SyncExactlyWhen` | service/tunnel.go:112-165 | From every linked state of the indexes, routes lost before included: for all iteration orders a refresh brings them in step with the configuration, if and only if configured addresses are distinct, nobody else in the tunnel has the address a peer ends at, and whoever keeps its address still has its route |
| `LostRoutes.LostStaysLost` | service/tunnel.go:126-132 | A tunnel peer that lost its route stays unroutable through every sequence of refreshes in which it stays known at its address, whatever else changes |
| `LostRoutes.RefreshSyncs` | service/tunnel.go:118-164 | The sufficient direction, for each pair of iteration orders |
| `LostRoutes.DisputeFails` | service/tunnel.go:134-163 | If another tunnel peer has the address a peer ends at, some iteration order leaves the indexes out of step |
| `LostRoutes.LeaverTakesRoute` | service/tunnel.go:134-163 | A peer that moves away or is closed takes the route of its address with it, also if another peer stays there |
| `TunnelIndex.RefreshKeepsLinked` | service/tunnel.go:112-165 | For every configuration history, duplicates and swapped addresses included, every route leads to a live peer whose address is the key of the route |
| `TunnelIndex.UpsertKeepsLinked` | service/tunnel.go:118-152 | The same for one known peer, in each branch |
| `TunnelIndex.DropKeepsLinked` | service/tunnel.go:160-163 | The same for closing a peer |
| `RoutedRuns.RunStaysSynced` | api/peers.go:138-156 | Along every run in which each checked config change is followed by its own refresh and no generated address is taken already, indexes and configuration stay in step; peers with invalid addresses or addresses outside the subnet included |
| `RoutedRuns.LookupIsAScan` | service/tunnel.go:218-221 | Along every such run, from any configuration with distinct valid addresses, a destination is looked up to a peer if and only if a scan of the configuration finds that peer with that address |
| `RoutedRuns.EventTakesOverNothing` | config/network_addr.go:99-108 | A uniqueness-checked change never gives a peer an address that another tunnel peer still holds |
| `RoutedRuns.ReadyExactlyWhen` | config/network_addr.go:79-111 | From distinct valid addresses, an event keeps them distinct if and only if it is not an addition whose generated address some peer has already |
| `RoutedRuns.RoomGivesOwnAddress` | config/network_addr.go:38-75 | While the generator has room in the subnet its address is nobody's, for any configuration |
| `RoutedRuns.FirstRefreshSyncs` | service/tunnel.go:41-57 | The refresh of a new tunnel brings empty indexes in step with any configuration whose valid addresses are distinct |
| `TunnelService.Tunnel.RefreshPeersList` | service/tunnel.go:112-165 | The two loops compute the refresh of the indexes for the orders they visit, and the channels closed are exactly those of the peers that left, each for the first time |
| `TunnelService.Tunnel.RefreshPeer` | service/tunnel.go:118-152 | One known peer is skipped, kept, moved or added; no channel is closed |
| `TunnelService.Tunnel.ClosePeer` | service/tunnel.go:160-163 | A peer is closed that was not closed before, and leaves both indexes |
| `TunnelService.Tunnel.Close` | service/tunnel.go:167-179 | Shutdown closes exactly the live peers, each for the first time, and empties both indexes |
| `TunnelService.Tunnel.constructor` | service/tunnel.go:45-53 | A tunnel starts with empty, linked indexes |
| `InboundBatch.ProcessBatch` | service/tunnel.go:421-456 | The packets written to the device are the order-preserving subsequence that parses; the pool gets the rejected ones, the valid ones and the ones left behind; every slot ends empty |
| `InboundBatch.Compact` | service/tunnel.go:421-434 | The in-place compaction, with the references it leaves behind |
| `InboundBatch.ReturnedOnceIff` | service/tunnel.go:450-456 | Every packet goes back exactly once if and only if the packets that fail to parse form a suffix of the batch |
| `InboundBatch.ReturnedCounts` | service/tunnel.go:424-456 | Every packet goes back at least once, and a second time exactly if it was left behind |
| `InboundBatch.LeftBehindIff` | service/tunnel.go:431-432 | Something is left behind unless the failures form a suffix |
| `InboundBatch.HeldAfterCompaction` | service/tunnel.go:450-456 | What the slots still refer to after compaction: the valid packets, then the ones left behind |
| `OutboundStream.QuotaHolds` | service/tunnel.go:369-403 | Over every sequence of batches, connectivity changes, open and write failures and idle ticks, fewer packets go onto each stream than the limit of that stream's own kind, although the limit variable is stale while no stream is open |
| `OutboundStream.HandleKeepsInv` | service/tunnel.go:370-402 | Each turn of the sender's loop keeps counter, limit and streams consistent |
| `OutboundStream.LimitedPayload` | service/tunnel.go:298-306 | The bytes of the packets on a limited stream add up to less than 20 MiB when each is at most the interface MTU |
| `OutboundStream.WithinLimitExactlyWhen` | service/tunnel.go:298-306 | For every largest packet size and every overhead per packet: limited streams stay within 20 MiB in all runs if and only if size and overhead together are at most 3501 bytes |
| `OutboundStream.WireBytesFitExactlyWhen` | service/tunnel.go:333-337 | With the length headers limited streams stay within 20 MiB in all runs if and only if packets are at most 3493 bytes |
| `OutboundStream.FramesOnTheWire` | service/tunnel.go:333-336 | The encoding of a batch has the bytes of its packets plus one length header each |
| `OutboundStream.FilledStream` | service/tunnel.go:369-403 | For every packet size a run that puts the whole quota of such packets on one limited stream |
| `OutboundStream.FilledUnlimited` | service/tunnel.go:298-306 | For every packet size a run that puts 1533915 such packets on one stream that is not limited |
| `OutboundStream.QuotaInNumbers` | service/tunnel.go:298-306 | After every run at most 5990 packets are on each limited stream and at most 1533915 on each other one |
| `OutboundTurns.BatchGoes` | service/tunnel.go:369-403 | After every history a batch goes onto the open stream if and only if that stays below the limit of its kind, and otherwise onto a new stream, or nowhere if none can be opened; a failed write closes the stream |
| `OutboundTurns.FailureCloses` | service/tunnel.go:388-394 | After every history and a batch that could not be sent, no stream is open and nothing is counted |
| `OutboundTurns.IdleCloses` | service/tunnel.go:397-401 | After every history an idle tick with nothing waiting closes the stream and loses nothing; with packets waiting, or for a batch while disconnected, nothing changes |
| `OutboundTurns.PastIsFixed` | service/tunnel.go:348-356 | A stream that was closed never changes again, whatever follows |
| `OutboundTurns.FailedIsLast` | service/tunnel.go:388-394 | A stream carries at most one batch whose write failed, as its last one |
| `OutboundStream.WireBytesCanExceedLimit` | service/tunnel.go:301-302 | A run with packets of the MTU whose limited stream carries more than 20 MiB once the length headers are counted |
| `OutboundStream.OutboundHandler.Loop` | service/tunnel.go:369-403 | The loop over any events ends in the state of the run, with every stream within its quota |
| `OutboundStream.OutboundHandler.Send` | service/tunnel.go:315-347 | Opening a stream when there is none, setting the limit of its kind, and writing a batch |
| `OutboundStream.OutboundHandler.Turn` | service/tunnel.go:370-402 | One turn: drop when disconnected, close at the limit, count, send, close on error, close when idle |
| `Consent.ConfirmedMeansConsent` | service/auth_status.go:67-453 | In every run from empty configurations, with messages delayed, reordered, repeated or lost and nodes restarting: if a node holds a peer as confirmed, that peer has the node among its known peers now or had it at an earlier moment |
| `Consent.RunKeepsInv` | service/auth_status.go:67-453 | The invariant behind it, over nodes, messages in flight and pending handlers, holds in every run |
| `Consent.NextKeepsInv` | service/auth_status.go:67-368 | Every step keeps it: invite, request, accept, decline, automatic accept, retry, both directions of the status exchange, settings, removal, restart |
| `Consent.AddingOk` | service/auth_status.go:317-368 | A peer is added as confirmed only when its consent is on record |
| `Consent.ProcessOk` | service/auth_status.go:184-222 | A status confirms only a peer that sent one without declining, and so knew us |
| `Consent.StatusOk` | service/auth_status.go:67-156 | Both sides of a status exchange send a status that does not decline only to peers they know |
| `Consent.RequestOk` | service/auth_status.go:224-315 | Both sides of an auth request keep the invariant, for each answer |
| `Consent.UserOk` | api/peers.go:211-248 | Declining, removing, choosing an exit node and changing settings keep the invariant |
| `StatusExchange.OneExchangeConverges` | service/auth_status.go:67-156 | After one exchange between two nodes that know and do not block each other both are settled: confirmed, not declined, agreeing on name and exit-node permission; the exact new state of each says which fields, pending requests and exit-node choice change, and that nothing else does |
| `StatusExchange.SecondExchangeReports` | service/auth_status.go:165-222 | A further exchange, started by either side, keeps that and both choices, and makes each side's report of the other's exit node correct |
| `StatusExchange.ThirdExchangeChangesNothing` | service/auth_status.go:111-156 | From then on an exchange changes neither node |
| `StatusRuns.ExchangeIsARun` | service/auth_status.go:67-156 | From every world with two such nodes there is a run of protocol steps that is one complete exchange: both end as above and no other node changes |
| `StatusRuns.TwoExchangesReport` | service/auth_status.go:111-156 | Two exchanges in a row as a run of the protocol: both sides end settled and each reports the other's exit node correctly |
| `StatusTalks.EveryTalkConverges` | service/auth_status.go:67-222 | In every run in which the two only exchange statuses, in any number, order and overlap, with messages lost or repeated and other nodes doing what they like: a side that has processed a status agrees with the other, and if both have they are settled; records of other peers do not change |
| `StatusTalks.EveryLaterTalkReports` | service/auth_status.go:67-222 | In every such run from a settled pair both choices stay, and a side that has processed a status reports the other's exit node correctly |
| `StatusTalks.StepKeepsSide` | service/auth_status.go:67-156 | Every step of such a run keeps all statuses in flight and pending true of their sender, and what was learned |
| `StatusTalks.HearingTeaches` | service/auth_status.go:184-222 | Processing any status the other may have sent at any time of the run gives the agreed record |
| `StatusExchange.StatusSettles` | service/auth_status.go:184-222 | An accepted status changes only the record of its sender and the chosen exit node, fills in a missing alias, and leaves a choice that a repetition would not change |
| `Friendship.StrangersCanBecomeFriends` | api/peers.go:174-248 | From every world with two strangers there is a run in which one invites, the other accepts and they exchange statuses, and both end as settled friends while no other node changes |
| `Friendship.StrangersCanBecomeFriendsByThemselves` | service/auth_status.go:224-267 | The same without the second user, if the other node accepts automatically and finds a free alias |
| `Friendship.AutoAcceptExactlyWhen` | service/auth_status.go:253-257 | Automatic acceptance adds the stranger if and only if the alias made from its name is free once trimmed |
| `Friendship.SpacedNameIsNotAccepted` | service/auth_status.go:253-257 | The failing case: a name with a leading space whose trimmed form is an alias in use |
| `Friendship.DeclineBlocks` | api/peers.go:237-239 | Declining a request blocks its sender and opens no stream to it |
| `Friendship.DeclinedForGood` | api/peers.go:237-239 | In every run, once a request was declined and while the peer is not added again, everything sent to it refuses it, if no status stream of it was being served |
| `Friendship.DeclineIsLearned` | service/auth_status.go:158-163 | From every world in which a peer knows us, declining its request can lead to it holding us as declined, and the request is gone |
| `Friendship.RemoveForgets` | api/peers.go:294-320 | Removing a peer forgets it and no other |
| `Friendship.RemovedForGood` | api/peers.go:309-316 | In every run, once the block after a removal has been made and while the peer is not added again, everything sent to it refuses it, if no status stream of it was being served |
| `Friendship.RemovalIsLearned` | api/peers.go:309-316 | Removing a friend that knows us can lead to it holding us as declined |
| `Friendship.AskingIsRefused` | service/auth_status.go:67-110 | A blocked peer that asks for our status, known or not, can be refused and then holds us as declined |
| `Friendship.AnswerIsLearned` | service/auth_status.go:269-315 | A friend request to a node that knows or blocks its sender can be answered: it is no longer outstanding, and a refusal is kept |
| `Friendship.SettingsReach` | api/peers.go:151-160 | After an allowed change of settings between friends, an exchange leads to the other side holding exactly the permission that was set |
| `Friendship.NameReaches` | api/settings.go:71-78 | After a change of the own name an exchange leads to a friend holding it |
| `Friendship.ChosenExactlyWhen` | api/settings.go:128-137 | A choice of exit node is made if and only if it is none or a known peer that allows it, and changes nothing else |
| `Friendship.ChoiceReaches` | service/auth_status.go:165-182 | An exchange after such a choice leads to a friend reporting it |
| `Requests.NeverAskedExactlyWhen` | service/auth_status.go:388-453 | For every world: in all runs without an invitation, restarts included, the peer gets no friend request, if and only if it is unknown or has confirmed or declined, and no request to it is outstanding or about to be sent |
| `Requests.DeclinedNotAskedAfterRestart` | service/auth_status.go:439-453 | After a restart a peer that has declined is not asked again in any run until it is invited |
| `Requests.DeclinedCanBeAsked` | service/auth_status.go:186-197 | A declined peer with an outstanding request can be asked once more |
| `PeerRecords.AddMeans` | service/auth_status.go:317-352 | An allowed addition leaves a record with the given name, trimmed alias, address and confirmed flag, not declined, without either permission, reporting nothing; lifts the block of that peer; and changes nothing else |
| `PeerRecords.AddedExactlyWhen` | service/auth_status.go:317-341 | A peer is added if and only if it is unknown, nobody has its trimmed alias, and a given address is valid, inside the subnet and nobody's |
| `PeerRecords.UpdateMeans` | api/peers.go:132-156 | An allowed change sets the four fields as given and no other field of any record; a refused one changes nothing |
| `PeerRecords.UpdatedExactlyWhen` | api/peers.go:132-149 | A change is allowed if and only if the peer is known and no other peer has the alias or the address, which is inside the subnet |
| `PeerRecords.RemoveMeans` | config/config.go:181-195 | Removing takes away that record and no other |
| `PeerRecords.RefusalMeans` | service/auth_status.go:186-197 | A refusing status marks the record and ends the use of the peer as exit node, and nothing else changes |
| `PeerRecords.UnknownStatusMeans` | service/auth_status.go:184-222 | A status of a peer removed in the meantime changes no record of a real peer |
| `PeerRecords.AnswerMeans` | service/auth_status.go:238-260 | A friend request is answered as confirmed if and only if the sender is known and as declined if and only if it is blocked |
| `PeerRecords.RequestMeans` | service/auth_status.go:244-258 | A stranger's request is kept under its name unless it is accepted automatically; no other request changes anything |
| `PeerRecords.AnsweredMeans` | service/auth_status.go:269-315 | An answer that decides ends the outstanding request to that peer only; a refusal is added to its record |
| `PeerRecords.RestartMeans` | service/auth_status.go:439-453 | After a restart the outstanding requests are exactly those to peers that neither confirmed nor declined, under the own name |
| `PeerRecords.TrimMeans` | service/auth_status.go:324-326 | Trimming cuts the white space from both ends and nothing else |
| `ExitNode.ChoiceIsPermitted` | service/auth_status.go:184-222 | From any configuration and for every serialized history: once a status of a peer was processed and the peer was not added again since, having it as exit node means having its permission |
| `ExitNode.DoKeepsPermitted` | api/settings.go:128-137 | Every config change but adding the peer anew keeps this |
| `ExitNode.PermittedExactlyWhen` | service/auth_status.go:317-352 | An event keeps the exit-node choice backed by permission if and only if it is not an allowed addition of the chosen peer |
| `ExitNode.AlwaysPermittedExactlyWhen` | config/config.go:181-195 | A choice that is backed by permission at the start is so in all states of a serialized history, if and only if the peer is never added while it is the chosen one |
| `ExitNode.RemovedAndAddedAgain` | config/config.go:181-195 | Choosing, removing and adding a peer again leaves it chosen without its permission |
| `ExitNode.NeverDeclinedExactlyWhen` | service/auth_status.go:186-197 | A chosen peer that has not declined us at the start has not in all states of a serialized history, if and only if no declined peer that is still permitted gets chosen and no request to the chosen peer is declined |
| `ExitNode.NotDeclinedExactlyWhen` | api/settings.go:128-137 | The same, for one event |
| `ExitNode.DeclinedCanBeChosen` | service/socks5.go:203-207 | After a grant and a refusal a peer can still be chosen, and the check before proxying accepts it |
| `ExitNode.StatusPermits` | service/auth_status.go:211-220 | Processing any status of the peer establishes it |
| `ExitNode.ProxyConn` | service/socks5.go:194-207 | A connection is proxied if and only if a peer is chosen, known and permits it, whatever the history |
| `ExitNode.SettingsChangeSafeExactlyWhen` | api/peers.go:132-156 | For every sequence of other changes between the read and the write of a settings change, the write keeps the exit-node permission, if and only if the record carried the permission when it was read |
| `ExitNode.OvertakingChooses` | service/auth_status.go:207-217 | Dropping the choice and then processing a grant of the peer chooses it, with its permission: the interleaving that a stale write undoes |
| `ExitGrants.AllowedExactlyWhen` | api/peers.go:151-156 | For every serialized history: a peer may use us as exit node if and only if an allowed change of settings granted it and neither a later change nor a removal revoked it; an addition never grants it |
| `ExitGrants.RunAllowsExactlyWhen` | service/auth_status.go:67-453 | The same in every run of the protocol, for every node and peer |
| `ExitGrants.ToldMeansGranted` | service/auth_status.go:165-182 | In every run, a status that tells a peer it may use us is sent only if at that moment or an earlier one of the run the permission was granted and not revoked |
| `ExitGrants.ToldSettingExactlyWhen` | service/auth_status.go:67-182 | In all runs in which the user does not alter the peer it is told the setting of the moment or refused, if and only if no goroutine carries a copy of its record with another setting that it will send |
| `ExitGrants.RevokedAndToldOtherwise` | api/peers.go:151-160 | Granting and revoking in a row, and a run after that in which the peer is told something else than the setting |
| `ExitGrants.StepAllowsExactlyWhen` | service/auth_status.go:184-368 | A step of the node leaves the permission in force if and only if it grants it, or it was in force and the step does not revoke it |
| `RegistryInvariant.HistoryKeepsSound` | service/auth_status.go:317-352 | Over every serialized history of additions, updates, removals and status processing aliases stay pairwise distinct, and addresses pairwise distinct and inside the subnet, while the generator has room |
| `RegistryInvariant.AddIsSoundExactlyWhen` | config/network_addr.go:38-75 | An allowed addition keeps this if and only if a given address is used, or the generator has an address left inside the subnet (or wraps to a free 0 when the subnet is all of IPv4) |
| `RegistryInvariant.FullSubnetRepeats` | config/network_addr.go:38-75 | In a full subnet two peers added one after the other get the same address |
| `RegistryInvariant.StatusKeepsSound` | service/auth_status.go:201-210 | A status never moves an address, and an alias it invents is new |
| `RegistryInvariant.UpdateKeepsSound` | api/peers.go:138-156 | A checked change of settings keeps aliases and addresses unique |
| `AuthStatusService.AuthStatus.ProcessPeerStatusInfo` | service/auth_status.go:184-222 | The method moves the stored state exactly as the protocol model's status step |
| `AuthStatusService.AuthStatus.AddPeer` | service/auth_status.go:317-352 | Refuses known peers, used aliases and used addresses, and otherwise moves the state as the model's addition |
| `AuthStatusService.AuthStatus.UpdatePeerSettings` | api/peers.go:132-156 | Refuses exactly what the checks refuse, and otherwise changes only the four editable fields |
| `AuthStatusService.AuthStatus.AuthRequest` | service/auth_status.go:224-267 | The answer to a request, and whether it is accepted automatically, for known, blocked and new peers |
| `AuthStatusService.AuthStatus.AuthAnswer` | service/auth_status.go:269-315 | What an answer changes: the outgoing request ends, a decline marks the peer |
| `AuthStatusService.AuthStatus.RestoreOutgoingAuths` | service/auth_status.go:439-453 | After a restart exactly the peers that never answered are asked again, in any order of the map |
| `AuthStatusService.AuthStatus.constructor` | service/auth_status.go:48-65 | A process start keeps the stored configuration and restores the outgoing requests |
| `AuthStatusService.AuthStatus.RemovePeer` | config/config.go:181-195 | Removing reports whether the peer was known and removes nothing else |
| `ConfigEvents.UnblockedExactlyWhen` | service/auth_status.go:342-352 | A config change lifts the block of a peer if and only if it is an allowed addition of that peer |
| `ConfigEvents.BlockStays` | config/config.go:230-251 | A block survives every history of config changes in which the peer is not added again |
| `Blocking.RefusedExactlyWhen` | service/auth_status.go:67-182 | In every run in which a blocked peer is not added again, all statuses and answers sent to it refuse and tell nothing else, if and only if no status stream of it had been looked up before the block |
| `Blocking.StepRefusesExactlyWhen` | service/auth_status.go:75-93 | A step of the blocking node sends something else to the peer if and only if it answers a stream that was looked up before the block |
| `Blocking.RunRefuses` | service/auth_status.go:111-182 | Without such a stream every step of every run sends only refusals, whatever handlers, retries and exchanges are pending |
| `Blocking.OpenStreamLeaks` | service/auth_status.go:75-97 | From every world with such a stream, a run in which the peer asks and gets a status that does not decline |
| `Blocking.NothingIsLearned` | service/auth_status.go:94-156 | In every run in which a blocked peer is not added again nothing it sends changes what the node holds about its name, confirmation, permission and exit node, if no exchange with it was under way |
| `AuthStatusService.AuthStatus.UpdateProxySettings` | api/settings.go:128-137 | An exit node can be chosen if and only if it is empty, or known and permitted |
| `Framing.RoundTrip` | service/tunnel.go:73-92 | Decoding the concatenated frames of any packet list within the size limit gives back the list |
| `Framing.DecodeOfCut` | service/tunnel.go:73-92 | Cutting the bytes anywhere gives exactly the packets whose frames are complete, plus on a clean end past a length header one short prefix of the next packet |
| `Framing.ReadPackets` | service/tunnel.go:73-92 | The handler's loop delivers what the bytes decode to, whatever the chunk sizes; a broken stream loses at most the last whole packet |
| `Framing.Transmit` | service/tunnel.go:73-92 | Sender and reader together, for any packets, any cut and any chunking: a clean end delivers the whole frames and the prefix of the started one, a broken stream the whole frames or all but the last, and an uncut clean stream the packets |
| `Framing.ReadFrom` | vpn/packet.go:43-55 | A packet read from a limited stream holds the next bytes up to the limit, or all that is left at a clean end |
| `Framing.ReadUint64` | protocol/protocol.go:76-88 | The length header is read whole or not at all |
| `Framing.AppendPacketToBuf` | protocol/protocol.go:90-96 | A frame is added behind what the buffer held |
| `Framing.SerializeBatch` | service/tunnel.go:333-336 | One batch becomes the concatenation of its frames |
| `Framing.BigEndianRoundTrip` | protocol/protocol.go:76-96 | Reading a written length gives it back, for any width |
| `Framing.FrameBytes` | protocol/protocol.go:90-96 | Byte `k` of a frame is the length divided by 256 to the power `7 - k`, modulo 256, for the first eight; the packet follows |
| `Framing.BigEndianByte` | protocol/protocol.go:90-94 | The same for any number and width |
| `Packets.RewritingIsSound` | vpn/packet.go:89-111 | For every IPv4 packet with a whole header and room for its checksums: after rewriting, the addresses are in place, header and (for TCP and UDP) pseudo-header plus segment sum to 0xffff in ones' complement, and every other byte is unchanged |
| `Packets.HeaderChecksumHolds` | vpn/packet.go:93-96 | The header with its new checksum sums to 0xffff |
| `Packets.TransportChecksumHolds` | vpn/packet.go:98-109 | Pseudo-header plus segment with its new checksum sums to 0xffff |
| `PacketLayout.HeaderBytes` | vpn/packet.go:89-96 | For every whole IPv4 packet: of the header only bytes 10 to 19 change; 12 to 15 are the sender, 16 to 19 the receiver, and the header sums to 0xffff |
| `PacketLayout.SegmentBytes` | vpn/packet.go:98-109 | Behind the header only bytes 16 and 17 change for protocol 6, only 6 and 7 for protocol 17, and nothing for others |
| `PacketLayout.SegmentSums` | vpn/packet.go:98-142 | For protocols 6 and 17 source, destination, zero, protocol and length followed by the segment sum to 0xffff |
| `Packets.Packet.Parse` | vpn/packet.go:57-87 | Accepts exactly packets of version 4 with at least 20 bytes and of version 6 with at least 40, finds their addresses at bytes 12 and 16, or 8 and 24, and leaves the bytes alone |
| `Packets.Packet.RecalculateChecksum` | vpn/packet.go:89-111 | Rewrites the two checksums in place, touches nothing else in the buffer, and leaves IPv6 alone |
| `DeviceWrite.WritePacketsBatch` | vpn/vpn.go:97-109 | Every IPv4 packet of a batch is rewritten in place, IPv6 packets are as they were, and exactly the IPv4 packets go to the device, in order; also if one packet object occurs more than once |
| `DeviceWrite.RewrittenTwice` | vpn/packet.go:89-111 | Rewriting addresses and checksums a second time changes nothing, for every header length and protocol |
| `Checksum.TcpipChecksum` | vpn/packet.go:147-165 | The loop with its 32-bit accumulator computes the complement of the folded sum of big-endian words, an odd last byte being a high byte |
| `Checksum.ChecksumIPv4Header` | vpn/packet.go:113-126 | Agrees with the generic loop for every length, and with the checksum by definition below 65536 bytes |
| `Checksum.ChecksumIPv4TCPUDP` | vpn/packet.go:128-142 | Equals the checksum of the explicit 12-byte pseudo-header followed by the segment |
| `Checksum.Fold` | vpn/packet.go:161-164 | Folding ends at the residue modulo 65535 that is 0 only for a zero sum |
| `Checksum.FoldStep` | vpn/packet.go:161-163 | One folding step keeps that residue |
| `Checksum.NoOverflow` | vpn/packet.go:147-160 | Below 65536 bytes the 32-bit sum does not overflow |
| `Checksum.FilledFieldSums` | vpn/packet.go:89-111 | Writing the checksum into its zeroed field at any even offset makes the string sum to 0xffff |
| `Checksum.PseudoHeaderSum` | vpn/packet.go:128-139 | The pseudo-header contributes what the code adds up by hand |
| `Checksum.WordSumIsWeighted` | vpn/packet.go:147-160 | The sum of words is the sum of bytes at even places times 256 and those at odd places |
| `Checksum.ResidueOf` | vpn/packet.go:161-165 | The ones' complement value is congruent to the sum modulo 65535 and 0 only for 0 |
| `RingBuffers.ShowsTheLastBytes` | ringbuffer/ring_buffer.go:28-79 | After any sequence of writes and resets a reader sees exactly the last `size` bytes accepted since the last reset, and compaction moved at most 10/7 of the bytes accepted |
| `RingBuffers.ApplyTracks` | ringbuffer/ring_buffer.go:28-46 | Each operation keeps contents and the paid-up cost of compaction |
| `RingBuffers.AppendHolds` | ringbuffer/ring_buffer.go:40-41 | A truncated write adds exactly the accepted prefix to what is visible |
| `RingBuffers.CompactionHolds` | ringbuffer/ring_buffer.go:34-38 | Compaction does not change what a reader sees |
| `RingBuffers.WrittenMeans` | ringbuffer/ring_buffer.go:28-46 | A write compacts if and only if more than 17/10 of the size is used, then takes as many bytes as fit, behind the last `size` bytes or all there were |
| `RingBuffers.RingBuffer.Write` | ringbuffer/ring_buffer.go:28-46 | In-place write: takes what fits, always makes progress, and takes up to `2*size - size*17/10` bytes whole |
| `RingBuffers.RingBuffer.Compact` | ringbuffer/ring_buffer.go:34-38 | The overlapping copy moves the last `size` bytes to the front |
| `RingBuffers.RingBuffer.Bytes` | ringbuffer/ring_buffer.go:54-71 | A new array with exactly the visible bytes |
| `RingBuffers.RingBuffer.Reset` | ringbuffer/ring_buffer.go:74-79 | Nothing stays visible, and the next write is taken whole up to the size of the array |
| `Addressing.ContainsIsMasking` | config/network_addr.go:38-57 | Having the same masked bits as the interface address is lying in the interval from network to broadcast address |
| `Addressing.BroadcastIsLast` | vpn/packet.go:167-175 | Setting all host bits gives the last address of that interval |
| `Addressing.GetIPv4BroadcastAddress` | vpn/packet.go:167-175 | The loop over the octets computes it |
| `AddressPool.GenerateNextIpAddrExcept` | config/network_addr.go:38-75 | If any address at all is not excepted: ends within one step more than there are exceptions, at the least address above the local and all in-subnet ones that is not excepted |
| `AddressPool.MaxAddress` | config/network_addr.go:45-57 | The scan finds the greatest in-subnet address in any order of the map |
| `AddressPool.TopMeans` | config/network_addr.go:45-57 | The greatest address in use is the local one or that of a peer in the subnet, and none of these is greater |
| `AddressPool.CheckIPUnique` | config/network_addr.go:79-111 | Accepts exactly the valid addresses inside the subnet that no other peer has, and says why otherwise |
| `AddressPool.SuggestIPs` | api/peers.go:256-283 | n pending requests get the n addresses after the greatest one in use, for every n up to the number of addresses; each passes the uniqueness check while the last is inside the subnet |
| `AddressPool.AboveTopIsFree` | config/network_addr.go:79-111 | What the generator yields inside the subnet passes the check |
| `Aliases.GenUniqPeerAlias` | config/config.go:405-429 | Ends by pigeonhole, with a non-empty alias that was not taken, the wanted one if it was free, and records it |
| `Aliases.GenAliasMeans` | config/config.go:405-429 | The alias, else the name, else "peer"; and if that is taken, followed by an underscore and the least number that makes it free |
| `Aliases.FirstFree` | config/config.go:419-426 | The first numbered candidate that is free, all before it being taken |
| `Aliases.TakenCandidates` | config/config.go:419-426 | No more candidates can be taken than there are aliases |
| `Aliases.CandidatesDiffer` | config/config.go:421-424 | Different numbers give different candidates |
| `Aliases.IsUniqPeerAlias` | config/config.go:143-155 | True exactly when no other peer has the alias, in any order of the map |
| `ConfigRepair.SetDefaults` | config/other.go:199-217 | For every peer map and order: ends, leaves aliases non-empty and pairwise distinct and no gap, changes nothing on its own result, repairs only what was missing; an alias is replaced only if it was empty or another peer ends up with it, and by one made from alias or name; of the peers without an address as many as there is room for get different ones right above those in use and all others one and the same; all of them are proper if and only if they fit |
| `ConfigRepair.GivenSoundExactlyWhen` | config/other.go:210-212 | The handed-out addresses are inside the subnet and nobody else's, if and only if there are at most as many missing ones as addresses above the greatest in use (or one more when the subnet is all of IPv4 and nobody has 0) |
| `ConfigRepair.OverflowCount` | config/other.go:210-212 | Exactly the missing addresses beyond that room become the one overflow address |
| `ConfigRepair.RepairPeer` | config/other.go:203-217 | One record is completed; a complete one with a fresh alias is left as it is |
| `ConfigRepair.TopAdvances` | config/other.go:210-212 | Each generated address becomes the new greatest one |

## Left out

- TunnelService.Tunnel.RefreshPeersList: the peer objects are positions in a growing list, and their channels only a set of closed ones; queues and packets are in the step system.
- `readBatchFromChan` and `clearTempPackets` have no method of their own: they are repeated receive steps and one clearing step in the step system.
- DeviceWrite.WritePacketsBatch: packets without room for their checksum fields are excluded, as for `Packets.Packet.RecalculateChecksum`.
- `CopyTo`, and what the TUN device does with the buffers it is given.
- Packets.RewritingIsSound: for UDP the code does not replace a zero checksum by all ones as RFC 768 asks, and nothing about that replacement is claimed.
- Framing.ReadFrom: frames longer than 3586 bytes are excluded, as a packet buffer has no room for them.
- Packets.Packet.RecalculateChecksum: IPv4 packets whose header length or size leaves no room for the checksum fields are excluded.
- AddressPool.GenerateNextIpAddrExcept: a list that names every IPv4 address is excluded, since the loop does not end on it.
- AddressPool.SuggestIPs: more than 2^32 pending requests are excluded, for the same reason.
- Framing.ReadPackets: streams with a frame longer than 3586 bytes are excluded, as for `Framing.ReadFrom`.
- Consent.ConfirmedMeansConsent: stated for real ids; a status read again after the peer was removed stores a record under the empty id, which the model keeps.
- ExitNode.ChoiceIsPermitted: a process that stops between changing the chosen peer and saving the configuration is not modelled.
- Aliases.GenUniqPeerAlias: white space and domain names are trimmed on ASCII only.
- Parsing and printing of IP addresses and peer ids: an address is a 32-bit value with one text, an id is its text.
- IPv6 packet paths, which the code skips.
- libp2p hosts, dialing, relays, JSON of the messages, HTTP routing and validation, SOCKS5 wire handling, DNS, updater, user interfaces, metrics, logging and files.
- Clocks, tickers and timeouts: steps that may happen at any time.
