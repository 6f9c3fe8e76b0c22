# Verified model of the mini-livechat server

This project models the server's push-to-talk floor, its media routing, its STUN codec and its SDP answers in Dafny,
and proves what they promise over all inputs and all runs. `dafny verify dfyconfig.toml` checks everything.

**Floor control.** `FloorControls` is the struct with its queue, as a value and as a class that changes in place;
`QueueOrder` says what the queue stands for; `FloorMachine` is one channel as a transition system with one event per
mutex critical section (so the admin revoke is two, and anything may happen in between); `FloorTiming` adds the clock
and the sweeps; `FloorHistory` tells a run from its events alone: which request a holder speaks for, what preempts it,
which pings keep it speaking and what ends its tenure; `Delivery` and `ChannelViews` add inboxes, members and
sessions; `FloorServer` has the handlers as methods that lock, change and dispatch, each proved to be a step of the
machine; `Sessions` has what joining, leaving and closing do across all hubs.

**Media.** `MediaPeers` has the endpoints with their two indices and the relay map, `AddressIndex` the address index at
the granularity of its locks, `UdpLoop` the sequential loop that latches addresses and hands DTLS packets over, `Relay`
the relay itself, `Renegotiation` the path from a printed `a=ssrc` line to the SSRC in a relayed header.

**STUN.** `Bits` has the word arithmetic, `Stun` the attribute walk and the Binding response (RFC 5389). HMAC-SHA1 and
CRC-32 are uninterpreted function parameters.

**SDP.** `Text` has the string operations, `SdpParse` the section parser, `SdpAnswer` the printer, `SdpPatch` the
patch of text already printed, `SdpReparse` the answer read again, `SdpRoles` who sends and receives in each section
and what a section carries, `SdpPayload` the payload types, `SdpUfrag` what is read when the ufrag has line feeds,
`SdpRenego` the second pass that inserts `a=ssrc` lines, `SdpOffers` offers that show the failing cases,
`ClientUfrags` the handlers with a ufrag that the client chose.

Clock readings, random numbers, the walk order of hash maps and the server's own address and credentials are parameters
or arbitrary choices.

## What the code does that one may not expect

- `CHANNEL_LEAVE` does not touch the floor, and it clears the session's channel, so a user who leaves while holding the
  floor or waiting stays there when the session ends (`Sessions.HandleChannelLeave`, `Sessions.Cleanup`: the exact
  conditions; `Sessions.LeaverKeepsFloor`: the case).
- Joining a second channel without leaving the first replaces the session's channel: the end of the session then frees
  only the second one (`Sessions.HandleChannelJoin`, `Sessions.MoverKeepsFirst`).
- A late joiner is always told that the talk burst is a normal one, even during an emergency (`Sessions.TellHolder`,
  `ChannelViews.LateJoinerToldNormal`).
- An Emergency request with a low priority preempts, and waiting entries may then outrank the holder until the next
  grant from the queue or idle floor (`FloorMachine.LowEmergencyInverts`).
- `rebuild_relay_map` forgets the entries of all other channels (`MediaPeers.RebuildForgetsOtherChannels`).
- The address index may look up endpoints that are gone: an address that an endpoint moved away from stays, so does
  the address of an endpoint whose ufrag joins again, which a join without an offer can choose, and so does the first
  address of an endpoint that is removed between the locks of its latch (`MediaPeers.MovedAddressStaysIndexed`,
  `MediaPeers.ReplacedAddressStaysIndexed`, `AddressIndex.RemovedDuringLatch`). The contracts of the sections in
  `AddressIndex` say of each exactly when it leaves an entry that stays; live endpoints are always looked up rightly.
- Two users of a channel may register one SSRC, since only duplicates inside an endpoint are refused; its packets then
  reach a receiver under two consumer SSRCs (`Relay.SharedSsrcHasTwoTargets`; `Relay.OnlyTargetIff` is the condition).
- A consumer SSRC is looked up and stored under two locks: of two handlers that allocate for one key at a time, the
  first announces an SSRC that is no longer stored (`MediaPeers.MediaPeerHub.RacingAllocations`).
- `start_dtls_handshake` sends the pending packets before it starts the task that reads them, into a channel with room
  for 128: with more of them the UDP loop waits for ever (`UdpLoop.Flood`, `UdpLoop.FloodedServer`).
- The `rfind` of the patch is misled by any printed attribute that contains the m= line: a mid can
  (`SdpOffers.MidOfferMisleads`), and so can a ufrag (`SdpOffers.UfragOfferMisleads`), since a join without an offer
  registers the client's own and a renegotiation prints it (`ClientUfrags.UfragMisleadsPatch`).
  `SdpPatch.AnswerIsItsLines` is the exact condition; generated ufrags and mids without an equals sign meet it
  (`ClientUfrags.GeneratedIsClean`).
- Such a ufrag may also have several lines, and each that starts with m= makes one more media section of the answer
  (`ClientUfrags.UfragAddsMediaSection`; `SdpRenego.GroupPerSection` and `SdpUfrag.AnswerReparsesExactly` are the exact
  conditions).
- When one of two sessions of a user ends, the user is unregistered for both
  (`Sessions.OlderSessionUnregistersNewer`).
- A receive-only audio section without payload type 111 keeps its m= line and loses its rtpmap lines
  (`SdpPayload.AudioWithoutOpus`, `SdpOffers.PcmuOffer`).
- The comment on the renegotiated answer speaks of sendonly sections; the code inserts an `a=ssrc` line in any section
  whose mid is mapped (src/protocol/sdp.rs:283-285 against 324-349). The model follows the code.
- `a=end-of-candidates` is not among the prefixes that the parser skips, so an offer's own such line is echoed and the
  answer has two; the `a=ssrc` line goes in front of the first one behind the mid.
- Two comments say that the walk returns the client's half of USERNAME (src/media/net.rs:132-133 and 471); the code
  returns the server's, the part in front of the colon, which is the key of the endpoint (src/media/net.rs:488-491).

## Model

| member | source | states |
|---|---|---|
| FloorControls.FloorControl.ClearTaken | src/core/floor.rs:67-75 | all holder fields go back to idle, the queue stays |
| FloorControls.FloorControl.Grant | src/core/floor.rs:77-85 | the floor is taken by the user now; the queue stays, also an entry of the grantee |
| FloorControls.FloorControl.RemoveFromQueue | src/core/floor.rs:102-105 | exactly the user's entries go, the others keep their order |
| FloorControls.FloorControl.Enqueue | src/core/floor.rs:88-95 | an older entry of the user goes and the new one stands behind all of at least its priority |
| FloorControls.FloorControl.DequeueNext | src/core/floor.rs:97-100 | takes the front entry, if any |
| FloorControls.FloorControl.QueuePosition | src/core/floor.rs:107-112 | the 1-based index of the user's first entry |
| FloorControls.RetainMembers | src/core/floor.rs:102-105 | removing a user keeps exactly the entries of all others |
| FloorControls.InsertMembers | src/core/floor.rs:88-95 | inserting adds exactly one entry, as a multiset |
| FloorControls.InsertSorted | src/core/floor.rs:88-95 | insertion keeps descending priority |
| FloorControls.InsertAt | src/core/floor.rs:90-94 | the position found by the search is where the entry belongs |
| QueueOrder.QueueIsSortedLog | src/core/floor.rs:86-105 | after any operations the queue is the stable descending-priority sort of each waiting user's latest request in arrival order, and everything in that history, also whom each dequeue served, is what the log sorted just before says |
| QueueOrder.ByPriorityInsert | src/core/floor.rs:88-95 | inserting into the sorted queue is appending to the log |
| QueueOrder.ByPriorityRetain | src/core/floor.rs:102-105 | removing a user commutes with sorting |
| QueueOrder.OnePerUserAfter | src/core/floor.rs:86-105 | the queue is sorted and has one entry per user after any operations |
| QueueOrder.WaitLogSnoc | src/core/floor.rs:86-105 | the log of latest requests, which is defined over the whole history, changes with one more happening by that happening alone |
| FloorMachine.StepInv | src/protocol/floor.rs:74-488 | every critical section keeps: taken iff a holder iff a grant time; idle means nobody waits; queue sorted, one entry per user, no Emergency entry |
| FloorMachine.RunInv | src/protocol/floor.rs:74-488 | that invariant in every run, with any interleaving of the admin revoke's two sections |
| FloorMachine.QueueIsPriorityFifo | src/protocol/floor.rs:143-316 | in every run the queue is the sorted log of the requests that had to wait |
| FloorMachine.AnnouncedPosition | src/protocol/floor.rs:218-231 | the position sent to a waiting user counts exactly the waiting requests of others that its own does not outrank, out of one more than the others |
| FloorMachine.CeilingStep | src/core/floor.rs:114-121 | no waiter outranks the holder after a step iff the step is not an Emergency preemption below a waiter's priority |
| FloorMachine.DecideRestoresCeiling | src/protocol/floor.rs:74-112 | a grant from the queue or an idle floor restores the ceiling from any state |
| FloorMachine.InversionNeedsLowEmergency | src/protocol/floor.rs:194-217 | a waiter outranks the holder only if an Emergency below the then-holder's priority preempted and nothing restored the ceiling since |
| FloorMachine.TopEmergenciesKeepCeiling | src/protocol/floor.rs:194-217 | if Emergency requests carry 255, no waiter ever outranks the holder |
| FloorMachine.LowEmergencyInverts | src/core/floor.rs:114-121 | a concrete run in which a waiter does |
| FloorMachine.GrantAnnounced | src/protocol/floor.rs:74-112 | a user becomes holder exactly when a FLOOR_GRANTED is sent to it |
| FloorMachine.HoldersAreSeparatedByGrant | src/media/net.rs:367-380 | between two moments with different holders there is a grant to the second |
| FloorMachine.SpeakersAreSeparatedByGrant | src/media/net.rs:367-380 | two packets relayed in one push-to-talk channel from different users have a grant to the second between them |
| FloorTiming.StepFresh | src/protocol/floor.rs:386-456 | every step keeps both clocks of a taken floor unexpired as of the last sweep |
| FloorTiming.RunFresh | src/protocol/floor.rs:386-456 | so does every timed run |
| FloorTiming.TenureIsBounded | src/core/floor.rs:127-140 | with sweeps at most P apart, a taken floor was granted less than 30000 + P ms ago and pinged less than 6000 + P ms ago |
| FloorTiming.AfterSweep | src/protocol/floor.rs:412-454 | right after its check a floor is idle, granted at that moment, or unexpired on both clocks |
| FloorTiming.WaitingStep | src/protocol/floor.rs:74-112 | one step leaves a waiter's place and the tenure as they are, or moves it up with a new tenure |
| FloorTiming.StillWaiting | src/core/floor.rs:97-105 | a waiter's place and the holder's grant time along a timed run |
| FloorTiming.BoundedWaiting | src/protocol/floor.rs:386-456 | a user at position k is granted the floor from the queue, or withdraws, within k (30000 + P) ms, when nothing preempts or passes it |
| FloorTiming.BoundedWaitingUnderCeiling | src/protocol/floor.rs:143-231 | the same bound while others go on requesting with no more than the waiter's priority and the ceiling holds |
| FloorHistory.EntryIsRequest | src/core/floor.rs:88-94 | in every run each queue entry is an actual request of its user, with its priority, indicator and time: the latest that was told a place |
| FloorHistory.GrantHasRequest | src/protocol/floor.rs:74-231 | every grant of a run is for a request of the run: the one of that step, or the one at the head of the queue when the step decides |
| FloorHistory.TenureAsAsked | src/core/floor.rs:77-84 | throughout a tenure the floor has the user, priority and indicator of that request and the time of the grant |
| FloorHistory.HolderAsked | src/core/floor.rs:77-84 | in every state of every run whoever holds the floor was granted it for such a request and has held it since, with that priority and indicator |
| FloorHistory.FreeFloorIsNew | src/core/floor.rs:67-74 | in every run a free floor is as new: nothing is left of earlier tenures |
| FloorHistory.FreeFloorIsGranted | src/protocol/floor.rs:177-193 | a request on a free floor is granted as asked |
| FloorHistory.TakesAtOnceIff | src/core/floor.rs:114-120 | over requests alone: a request takes a held floor at once iff it is an Emergency or its priority exceeds the one the holder asked with; the holder is told, and otherwise its tenure goes on |
| FloorHistory.TenureClock | src/core/floor.rs:122-131 | the time stamps of a holder are those of its grant and of its latest own ping or grant |
| FloorHistory.SweepRevokesIff | src/protocol/floor.rs:403-440 | a sweep revokes a holder iff its tenure has reached the limit or no grant or own ping is less than the ping timeout old, with the right cause, and does nothing otherwise |
| FloorHistory.TenureEndsIff | src/protocol/floor.rs:143-486 | exactly these events end a tenure: an outranking request, the own release or disconnect, an overdue sweep, an admin clear |
| FloorHistory.HolderKeepsFloor | src/protocol/floor.rs:351-379 | the lower bound: a holder keeps the floor iff none of them comes in, so through every sweep within the tenure limit as long as it pings |
| FloorHistory.PongIffHolderPings | src/protocol/floor.rs:361-378 | exactly the ping of the holder is answered |
| FloorHistory.OtherPingsChangeNothing | src/protocol/floor.rs:361-366 | a run without the ping of a non-holder goes on in the same states |
| FloorHistory.RevokeIffTakenAway | src/protocol/floor.rs:197-440 | a FLOOR_REVOKE is sent exactly to the holder that is preempted or swept, or to the one the admin saw, with that cause |
| Delivery.DispatchAppends | src/protocol/floor.rs:119-136 | dispatch appends to every inbox exactly the packets that reach its user, in order |
| Delivery.UserHub.BroadcastTo | src/core/user.rs:71-85 | a broadcast reaches the registered users of the set but the excluded one, whatever the order, and touches no other channel's inboxes |
| Delivery.UserHub.DispatchPackets | src/protocol/floor.rs:119-136 | the loop over the packets is the dispatch function on the channel's inboxes |
| ChannelViews.StepIsTold | src/protocol/floor.rs:74-136 | the packets of a step that ends or starts a tenure tell a member the new holder and its indicator, those of any other step nothing of the floor |
| ChannelViews.ChannelStepInSync | src/protocol/protocol.rs:233-455 | every handler keeps every member's view of holder and indicator what it should be |
| ChannelViews.ViewIsHolder | src/protocol/floor.rs:74-136 | in every run in which a member is registered, folding the packets it received since joining gives exactly the holder |
| ChannelViews.IndicatorIsRight | src/protocol/protocol.rs:365-386 | in the same runs the indicator that a member was told of another's talk burst is right iff it did not join during that tenure or the burst is a normal one |
| ChannelViews.LateJoinerToldNormal | src/protocol/protocol.rs:365-386 | the failing case: who joins during an emergency call is told of a normal one |
| ChannelViews.DisconnectFreesFloor | src/protocol/floor.rs:463-488 | after a disconnect the user neither holds the floor nor waits for it |
| ChannelViews.CleanupFreesChannel | src/protocol/protocol.rs:785-833 | the end of a session takes the user off floor and members iff the channel is its current one or the user was not there |
| ChannelViews.LeaverKeepsFloor | src/protocol/protocol.rs:400-455 | the failing case from any idle channel: join, request, leave and end of session, and the user holds the floor, neither member nor registered |
| ChannelViews.LeaverKeepsFloorInRun | src/protocol/protocol.rs:785-833 | that case as a run from a new channel |
| ChannelViews.MoverStaysMember | src/protocol/protocol.rs:233-398 | a run in which the session has moved on to another channel and its user stays a member after it ends |
| FloorServer.Channel.AddMember | src/core/channel.rs:82-93 | full is reported before already joined; the capacity is never exceeded |
| FloorServer.Channel.MayRelay | src/media/net.rs:367-380 | media passes iff the channel is a conference or the sender holds the floor |
| FloorServer.ChannelHub.Create | src/core/channel.rs:119-131 | an existing channel is returned as it is |
| FloorServer.ChannelHub.Remove | src/core/channel.rs:137-140 | the channel is gone; whether it was there |
| FloorServer.DecideNextHolder | src/protocol/floor.rs:74-112 | grants to the front of the queue or clears, with the packets to send |
| FloorServer.HandleFloorRequest | src/protocol/floor.rs:143-280 | is the request step and its dispatch, with the asked, else the registered, else the default priority; other floors and what other channels see stay; an unknown channel is an error that changes nothing. `FloorHistory.FreeFloorIsGranted`, `TakesAtOnceIff` and `FloorMachine.AnnouncedPosition` say what the step does |
| FloorServer.PriorityOf | src/protocol/floor.rs:156-160 | the priority asked for, else the registered one, else the default |
| FloorServer.HandleFloorRelease | src/protocol/floor.rs:287-344 | is the release step and its dispatch: a non-holder only leaves the queue; an unknown channel is an error that changes nothing |
| FloorServer.HandleFloorPing | src/protocol/floor.rs:351-379 | is the ping step and its answer; an unknown channel is an error that changes nothing. `FloorHistory.TenureClock`, `PongIffHolderPings` and `OtherPingsChangeNothing` say what the step does |
| FloorServer.CheckFloorTimeouts | src/protocol/floor.rs:386-456 | every channel makes its sweep step and dispatches its packets, in any order of the channels |
| FloorServer.OnUserDisconnect | src/protocol/floor.rs:463-488 | is the disconnect step and its dispatch, or nothing when the channel is gone |
| FloorServer.AdminCheck | src/http/admin.rs:275-288 | the first section only reads |
| FloorServer.AdminRevoke | src/http/admin.rs:290-321 | the second section clears floor and queue whatever happened since, and revokes the holder that the first one saw |
| Sessions.RegisteredSsrcs | src/core/media_peer.rs:84-91 | exactly the first requested track of each SSRC is registered, with its kind, and no SSRC twice |
| Sessions.HandleChannelJoin | src/protocol/protocol.rs:233-398 | its errors and its effect on members, endpoint, session and inbox; the session's channel alone mentions the user iff no other channel did |
| Sessions.TellHolder | src/protocol/protocol.rs:365-386 | a late joiner is told the holder, with a normal indicator |
| Sessions.HandleChannelLeave | src/protocol/protocol.rs:400-455 | members, endpoint, consumer SSRCs and relay targets forget the user, the others' consumer SSRCs stay, the relay map is the channel's rebuilt one, floors stay; nothing mentions the user iff it was not on the floor and nowhere else |
| Sessions.Cleanup | src/protocol/protocol.rs:785-833 | after the end of a session its user is unregistered and absent from its channel's members, holder and queue, from consumer keys and relay targets; the inboxes get what the disconnect dispatches and nothing else, the others' consumer SSRCs stay; absent everywhere iff no other channel mentioned the user, and without a live endpoint iff it had none but the session's |
| Sessions.JoinIsStep | src/protocol/protocol.rs:233-398 | for every channel, the join handler is its step in the runs of `ChannelViews`: a join, a move elsewhere, or nothing |
| Sessions.LeaveIsStep | src/protocol/protocol.rs:400-455 | so is the leave handler |
| Sessions.CleanupIsStep | src/protocol/protocol.rs:785-833 | and the end of a session |
| Sessions.LeaverKeepsFloor | src/protocol/protocol.rs:400-455 | join, request, leave and end of session with the handlers themselves: the user still holds the floor |
| Sessions.MoverKeepsFirst | src/protocol/protocol.rs:233-398 | join, request, second join and end of session: the user is still member and holder of the first channel, and the first endpoint is live |
| Sessions.OlderSessionUnregistersNewer | src/protocol/protocol.rs:785-833 | two sessions of one user: the end of the older one unregisters the user, who stays a member through the newer one |
| Sessions.ReapUsers | src/reaper.rs:36-52 | silent users lose registration and all memberships |
| MediaPeers.Endpoint.AddTrack | src/core/media_peer.rs:84-91 | a track is added unless its SSRC is there |
| MediaPeers.MediaPeerHub.Insert | src/core/media_peer.rs:126-136 | a new endpoint without address or tracks, the index untouched; no address goes stale iff none looked up a replaced endpoint; the index stays tight iff a replaced endpoint had no address |
| MediaPeers.MediaPeerHub.Latch | src/core/media_peer.rs:139-146 | its sections with nothing in between: the index goes on agreeing with a scan iff no other live endpoint has the address; no address goes stale by it; the index stays tight iff the endpoint had no other address |
| MediaPeers.MediaPeerHub.Index | src/core/media_peer.rs:142 | the store step of a latch: no address goes stale iff the endpoint is still live |
| MediaPeers.MediaPeerHub.Remove | src/core/media_peer.rs:153-162 | its sections with nothing in between: the lookup of every other live endpoint stays; no address goes stale iff none but its own looked the endpoint up; a tight index stays tight |
| MediaPeers.MediaPeerHub.LiveAddressesDistinct | src/core/media_peer.rs:126-162 | live endpoints have pairwise distinct addresses |
| MediaPeers.MediaPeerHub.GetByAddr | src/core/media_peer.rs:148-151 | the index lookup |
| MediaPeers.MediaPeerHub.GetOrCreateConsumerSsrc | src/core/media_peer.rs:189-209 | with nothing in between its two critical sections, allocates at most once per key, never zero |
| MediaPeers.MediaPeerHub.StoreConsumerSsrc | src/core/media_peer.rs:204-208 | the second critical section stores a new SSRC, also over one stored meanwhile |
| MediaPeers.MediaPeerHub.RacingAllocations | src/core/media_peer.rs:199-208 | two interleaved allocations for one key: the first returns the stored SSRC iff the key had one or both drew the same |
| MediaPeers.MediaPeerHub.RebuildRelayMap | src/core/media_peer.rs:213-234 | for any map order the result holds each target as often as a track and a consumer key call for it |
| MediaPeers.RouteEndpoint | src/core/media_peer.rs:221-232 | the two inner loops add exactly the feeds of one endpoint |
| MediaPeers.RouteMore | src/core/media_peer.rs:224-231 | one push accounts for one more feed |
| MediaPeers.RebuiltTargets | src/core/media_peer.rs:213-242 | a target is routed iff some endpoint of the channel has the track and a matching consumer key |
| MediaPeers.RebuiltIsBacked | src/core/media_peer.rs:213-242 | every relay entry has a consumer key with its value |
| MediaPeers.RebuildForgetsOtherChannels | src/core/media_peer.rs:213-219 | an SSRC used only in other channels has no targets after a rebuild |
| MediaPeers.NoTargetWithoutConsumer | src/core/media_peer.rs:245-249 | without consumer keys of a user nothing is relayed to that user |
| MediaPeers.MediaPeerHub.Depart | src/protocol/protocol.rs:442-445 | endpoint, consumer keys and relay targets of a leaving user are gone and the others' keys stay |
| MediaPeers.MovedAddressStaysIndexed | src/core/media_peer.rs:139-162 | the first failing case: latch, move and removal leave an address that looks up a removed endpoint |
| MediaPeers.ReplacedAddressStaysIndexed | src/protocol/protocol.rs:265-271 | the second one: a ufrag that joins again after its latch does so without any move |
| AddressIndex.Sections.LookUp | src/media/net.rs:144-152 | the loop either finds the address or goes on to latch it; the invariant of the index at lock granularity stays |
| AddressIndex.Sections.SetAddress | src/core/media_peer.rs:141 | keeps the invariant; an entry will stay iff a removal has not read the old address yet and that is indexed |
| AddressIndex.Sections.Index | src/core/media_peer.rs:142 | keeps the invariant; the new entry will stay iff its endpoint is gone and no removal will drop it |
| AddressIndex.Sections.Unregister | src/core/media_peer.rs:154 | keeps the invariant; an entry will stay iff another address than its own looks the endpoint up |
| AddressIndex.Sections.ReadAddress | src/core/media_peer.rs:156 | keeps the invariant and lets no entry stay |
| AddressIndex.Sections.Unindex | src/core/media_peer.rs:157 | whatever ran since the address was read, it drops the entry of its own endpoint only, none of a live one, and none will stay |
| AddressIndex.Sections.Join | src/core/media_peer.rs:126-136 | keeps the invariant; an entry will stay iff an address looks up the replaced endpoint |
| AddressIndex.Sections.LookupIsRight | src/core/media_peer.rs:126-162 | under every interleaving of the sections a live endpoint with an address, not just moving, is what that address looks up |
| AddressIndex.Sections.LiveAddressesDiffer | src/core/media_peer.rs:126-162 | and live endpoints have different addresses, also in the middle of a latch |
| AddressIndex.Sections.NothingStaysAtRest | src/core/media_peer.rs:148-162 | between removals, no entry will stay means that every indexed address looks up a live endpoint |
| AddressIndex.RemovedDuringLatch | src/core/media_peer.rs:139-162 | the third failing case: a removal between the sections of a first latch |
| UdpLoop.Loop.HandleDtls | src/media/net.rs:206-242 | whatever other tasks do between its sections, a packet is appended once, in order, or held back, never both; it keeps the hand-over invariant |
| UdpLoop.Loop.HandleStun | src/media/net.rs:136-201 | whatever other tasks do between its sections: the endpoint that the USERNAME names is answered, has the address, and is what the address looks up unless its own removal dropped that; a latch hands everything pending to a new session, and completes iff it fits; the branch that injects into a live session is never taken |
| UdpLoop.AskAgain | src/media/net.rs:144-153 | a later request from that address is answered for the same endpoint, whatever it names, unless the endpoint was removed or the loop is stuck |
| UdpLoop.Loop.Latch | src/core/media_peer.rs:139-146 | its three sections with other tasks in between: the endpoint named by the ufrag gets the address and the address looks it up, unless its own removal dropped the entry; alone it changes no other entry, and it adds no address but the latched one |
| UdpLoop.Loop.StartDtlsHandshake | src/media/dtls.rs:142-156 | the packets are appended in order, unless there are more than fit |
| UdpLoop.Loop.HandOverPending | src/media/net.rs:172-198 | after the hand-over nothing is pending for the address, its session is live, and the loop is stuck iff there was more than fits |
| UdpLoop.Loop.SessionCloses | src/media/dtls.rs:60-108 | a closing session keeps the invariant |
| UdpLoop.Loop.RemovalSection | src/core/media_peer.rs:153-162 | every section of a removal keeps the invariant and the entries of live endpoints, and drops no entry but that of its own endpoint |
| UdpLoop.Loop.Meanwhile | src/reaper.rs:54-67 | any sequence of ending sessions, sweeps, joins and sections of removals keeps the invariant, adds no latched address and no live session, and drops entries only by the removals of their endpoints |
| UdpLoop.Flood | src/media/dtls.rs:142-156 | the failing case: 129 DTLS packets from an address before its first request leave the loop stuck |
| UdpLoop.FloodedServer | src/media/net.rs:136-242 | that case from a new server with one endpoint and a well-formed request |
| UdpLoop.AppendedOnArrival | src/media/net.rs:206-242 | a packet of an address with nothing pending is appended once, behind all earlier ones |
| UdpLoop.HeldBack | src/media/dtls.rs:79-84 | a packet held back is behind all earlier ones |
| UdpLoop.HandedOver | src/media/dtls.rs:142-156 | draining hands over everything that was held back, in order |
| Relay.RelayToChannel | src/media/net.rs:355-464 | for any map order that lists every endpoint once: in a push-to-talk channel exactly the packets of the floor holder go out, unchanged, to the other endpoints of the channel with an address; in a conference the floor plays no part, and exactly the relay targets found with an address get rewritten copies, or the others an unchanged one if there are no targets |
| Relay.PeersInMembers | src/core/media_peer.rs:179-185 | the peers are exactly the channel's endpoints |
| Relay.PeersInDistinct | src/core/media_peer.rs:179-185 | none of them twice |
| Relay.ReachableIsFound | src/media/net.rs:402-413 | a user whose endpoints in the channel all have an address is found with one, whatever the map order |
| Relay.ReceivesIffReachable | src/media/net.rs:399-435 | a target's receiver gets every packet in every map order iff it has endpoints in the channel and all of them have an address |
| Relay.EchoedFromHub | src/media/net.rs:438-462 | whatever the map order, an echo reaches exactly the channel's other endpoints with an address |
| Relay.EchoedOnce | src/media/net.rs:438-462 | it reaches each of them once |
| Relay.RewrittenOnce | src/media/net.rs:399-435 | each target found with an address gets one copy |
| Relay.RelayedAreSeparatedByGrant | src/media/net.rs:367-380 | between two non-empty relay outputs of different users in a push-to-talk channel the second one is granted the floor |
| Relay.RelayedIsGranted | src/media/net.rs:367-380 | a non-empty relay output there belongs to a tenure that its sender was granted for an actual request of its own |
| Relay.RewrittenMembers | src/media/net.rs:399-435 | exactly the targets whose receiver is found with an address get a copy, rewritten and sent there |
| Relay.EchoedMembers | src/media/net.rs:438-462 | exactly the other endpoints with an address get the packet unchanged |
| Relay.WithSsrcCarriesSsrc | src/media/net.rs:415-417 | the rewritten header carries the consumer SSRC in network order |
| Relay.WithSsrcKeepsOthers | src/media/net.rs:415-417 | every byte but 8 to 11 is unchanged |
| Relay.TrackIsTarget | src/core/media_peer.rs:213-242 | after a rebuild a track goes to every receiver with a consumer SSRC for its user and kind, under that SSRC |
| Relay.OnlyTargetIff | src/core/media_peer.rs:213-242 | an SSRC goes to a receiver under one consumer SSRC alone iff all tracks that run under it in the channel have that one for the receiver or none |
| Relay.SharedSsrcHasOtherTarget | src/core/media_peer.rs:84-91 | the failing case: two tracks under one SSRC with different consumer SSRCs |
| Relay.SharedSsrcHasTwoTargets | src/core/media_peer.rs:84-234 | that case with the operations themselves: two users register one SSRC and the receiver gets it under both |
| Relay.AnnouncedIsRelayed | src/media/net.rs:387-435 | a receiver found with an address gets every packet of such a track with the consumer SSRC and all other bytes unchanged, and in no other form iff all tracks under the packet's SSRC agree |
| Relay.AllocateAll | src/protocol/protocol.rs:703-720 | every audio or video entry has a consumer SSRC, older ones are kept, none is zero |
| Relay.MappingsKept | src/protocol/protocol.rs:703-720 | mappings made earlier in the loop stay true |
| Renegotiation.LookupKeys | src/protocol/sdp.rs:314-317 | the collected map has exactly the mids of audio and video entries |
| Renegotiation.LookupOfEntry | src/protocol/sdp.rs:314-317 | with distinct mids it gives each its consumer SSRC |
| Renegotiation.PrintedIsConsumerSsrc | src/protocol/protocol.rs:703-730 | the block of a section with a mapped mid has one a=ssrc line, and the number read back from it is the consumer SSRC; that of an unmapped one has none |
| Renegotiation.RenegoAnnounces | src/protocol/sdp.rs:286-353 | for single-line values and patches that are right, in the text of the answer, section k of a mapped mid has exactly one a=ssrc line with the nonzero consumer SSRC, that of an unmapped mid none |
| Renegotiation.AnnouncedSsrcIsRelayed | src/media/net.rs:387-435 | the nonzero SSRC printed in section k is in bytes 8 to 11 of every packet relayed to the receiver from a track of the announced user and kind, all other bytes unchanged, and no other form reaches it iff all tracks under the same SSRC agree |
| Renegotiation.HandleRenegotiate | src/protocol/protocol.rs:667-736 | the answer prints the endpoint's ufrag and password; if these are single lines and mislead no patch, it announces, for mids mapped at most once, the consumer SSRCs that the rebuilt relay map routes to; older ones stay; an unknown channel changes nothing |
| Bits.XorTwice | src/media/net.rs:520-536 | XOR with the same word twice gives the value back |
| Bits.AndNotThree | src/media/net.rs:494-496 | clearing the two low bits rounds down to a multiple of four |
| Bits.PadIsRoundUp | src/media/net.rs:494-496 | `(n + 3) & !3` is the least multiple of four that is at least n |
| Bits.Be32Back | src/media/net.rs:512-571 | big-endian words are read back |
| Stun.ParseStunUsername | src/media/net.rs:472-500 | for every byte string the walk stays in bounds, ends, and gives the text before the colon of the first USERNAME |
| Stun.WalkFindsFirstUsername | src/media/net.rs:472-500 | on every padded attribute list the walk meets the first USERNAME |
| Stun.Utf8Decodes | src/media/net.rs:485-491 | a USERNAME is read as text exactly when its octets are those of a sequence of Unicode scalar values (RFC 3629) |
| Stun.CredentialsInFront | src/media/net.rs:485-491 | `ufrag:client` splits at the first colon when ufrag has none |
| Stun.UsernameRoundTrip | src/media/net.rs:472-500 | a list whose first USERNAME is `ufrag:client` with a generated ufrag gives exactly ufrag |
| Stun.MakeBindingResponse | src/media/net.rs:505-571 | the patched buffer is the response of RFC 5389 with both sums over the adjusted lengths; no answer to IPv6 |
| Stun.ResponseWalk | src/media/net.rs:505-571 | a walk finds XOR-MAPPED-ADDRESS, MESSAGE-INTEGRITY and FINGERPRINT and nothing else |
| Stun.SumsHold | src/media/net.rs:538-568 | a receiver that adjusts the length as sections 15.4 and 15.5 of RFC 5389 say computes both sums over the same bytes |
| Stun.MappedBack | src/media/net.rs:520-536 | un-XORing gives the source address and port |
| Stun.ResponseAccepted | src/media/net.rs:505-571 | the 64-byte response is accepted for every IPv4 source and transaction id |
| SdpParse.ParseOffer | src/protocol/sdp.rs:75-129 | the loop computes the sections |
| SdpParse.ParseSection | src/protocol/sdp.rs:78-129 | an m= line and what follows it up to the next is one section |
| SdpParse.ParseMakesSections | src/protocol/sdp.rs:78-129 | a section's m= line tells its media type, its mid is that of its last a=mid line, and no skipped line is kept |
| SdpAnswer.BuildSdpAnswerWithIce | src/protocol/sdp.rs:33-275 | the pushes and patches build the answer's text; what it says to its reader are the rows of `SdpRoles`, `SdpReparse`, `SdpPatch` and `SdpPayload` |
| SdpRoles.AnswerTakesTheOtherRole | src/protocol/sdp.rs:163-178 | for single-line values and patches that are right, in each section as read from the text the server receives iff the client offered to send, and sends iff the client offered to receive, except that a conference server never sends in a sendrecv section (RFC 3264, section 6.1) |
| SdpRoles.DirectionIsStated | src/protocol/sdp.rs:95-115 | in any text the direction of a media section is that of its last direction line, or sendrecv |
| SdpRoles.ParseOfGroups | src/protocol/sdp.rs:78-129 | the parser reads a text section by section, each from its m= line to the next |
| SdpRoles.CollectedLines | src/protocol/sdp.rs:54-60 | in any text the parser collects from a section, in order, exactly the lines for which the server has none of its own |
| SdpRoles.OtherSectionsKeepCodecs | src/protocol/sdp.rs:259-265 | a section of the answer in which the server receives or does nothing has the offered m= line and codec lines |
| SdpRoles.AnswerGroups | src/protocol/sdp.rs:148-272 | for the same values media section k of the text is what was printed for offered section k |
| SdpRoles.AnswerStates | src/protocol/sdp.rs:149-272 | every media section of the text has exactly one of each: the server's address, ufrag, password, fingerprint, passive setup, rtcp-mux and host candidate |
| SdpRoles.AnswerNamesTracks | src/protocol/sdp.rs:181-186 | exactly the sections in which the server sends and does not receive have an a=msid line, one that names the track of their mid |
| SdpRoles.AnswerIsLite | src/protocol/sdp.rs:139-145 | in front of its media sections the answer declares a lite ICE agent |
| SdpAnswer.PatchMLine | src/protocol/sdp.rs:231-236 | replaces the last occurrence and nothing else |
| SdpPatch.LastMediaLine | src/protocol/sdp.rs:231-236 | the last occurrence is the m= line being printed iff the msid line does not contain it |
| SdpPatch.PatchHitsCurrentSection | src/protocol/sdp.rs:148-239 | whatever was printed before and whatever the printed values are, the patch hits the current section's m= line iff the attributes printed behind it do not contain that line |
| SdpPatch.NoEqualsNoMLine | src/protocol/sdp.rs:149-186 | with no equals sign in the mid and the printed values, the attributes do not contain it |
| SdpPatch.OnlyMsidMisleads | src/protocol/sdp.rs:149-186 | when only the mid may have an equals sign, they contain it iff the msid line does |
| SdpPatch.MediaLineAsMidMisleads | src/protocol/sdp.rs:184-236 | a mid that is the m= line is contained |
| SdpPatch.MediaLineAsUfragMisleads | src/protocol/sdp.rs:151-236 | so is a ufrag that is the m= line, whatever the mid |
| SdpPatch.PrintedSection | src/protocol/sdp.rs:148-272 | printing a section appends its lines and leaves the text before as it was iff its patch changes nothing or finds its m= line nowhere in the attributes behind it; otherwise the text differs from that somewhere inside both |
| SdpPatch.AnswerIsItsLines | src/protocol/sdp.rs:137-275 | for every offer and all printed values, the text built with patches is the answer's lines, one after the other, iff that holds for each section's patch |
| SdpReparse.MidOneLine | src/protocol/sdp.rs:124-126 | the mid of a parsed section is a single line, whatever the offer |
| SdpReparse.AnswerReparses | src/protocol/sdp.rs:78-272 | for single-line values and patches that are right, parsing the answer gives as many sections in the same order, with the offered mid, media type and rtcp-rsize, the mapped direction and the printed codec lines |
| SdpReparse.BundleListsTheMids | src/protocol/sdp.rs:131-144 | the same for mids that are SDP tokens: the BUNDLE line lists exactly the answer's mids in order |
| SdpUfrag.AsManySections | src/protocol/sdp.rs:78-272 | for every ufrag, the answer has as many sections as the offer iff no line of the ufrag behind its first starts with m= |
| SdpUfrag.ReadAsPrinted | src/protocol/sdp.rs:78-186 | a section is read as it was printed iff nothing of the extra lines is collected as a codec line or mid and rtcp-rsize is not new |
| SdpUfrag.AnswerReparsesExactly | src/protocol/sdp.rs:78-272 | for every ufrag, parsing the answer gives the printed sections iff the extra lines of the ufrag are harmless in that sense and start no section |
| SdpUfrag.SectionPerMediaLine | src/protocol/sdp.rs:78-129 | any text has as many sections as m= lines |
| SdpReparse.SectionAgain | src/protocol/sdp.rs:148-272 | a printed section is read as one section |
| SdpReparse.AbsorbHead | src/protocol/sdp.rs:149-186 | the printed attributes set direction and rtcp-rsize and nothing else |
| SdpReparse.KeptCodecLines | src/protocol/sdp.rs:242-258 | the codec filter only drops lines and never an a=mid line |
| SdpReparse.MLineAgain | src/protocol/sdp.rs:88-95 | the patched m= line keeps media type and port |
| SdpReparse.ParsedHasPort | src/protocol/sdp.rs:83-90 | setting the port again changes nothing |
| SdpPayload.PayloadTypesStayClosed | src/protocol/sdp.rs:188-258 | m= and rtpmap payload types stay equal iff nothing is filtered, an offered one is allowed, or none was offered |
| SdpPayload.AllowedMembers | src/protocol/sdp.rs:188-217 | allowed are 111 alone in an audio section, and in any other the first payload type of the m= line and those whose fmtp line retransmits it |
| SdpPayload.PayloadTypesInOfferOrder | src/protocol/sdp.rs:219-258 | both are then the allowed ones in offer order, and exactly the lines of other payload types go |
| SdpPayload.PtBetweenColons | src/protocol/sdp.rs:248-251 | the payload type of a codec line is the first word between its first colon and the next |
| SdpPayload.FilteredRtpmaps | src/protocol/sdp.rs:242-258 | filtering the lines filters their payload types |
| SdpPayload.FilteredMembers | src/protocol/sdp.rs:242-258 | exactly the lines of dropped payload types go |
| SdpPayload.FilteredMediaPts | src/protocol/sdp.rs:219-236 | the patched m= line lists the allowed payload types, read back |
| SdpPayload.AudioWithoutOpus | src/protocol/sdp.rs:188-258 | the failing case, for every port |
| SdpOffers.PcmuOffer | src/protocol/sdp.rs:78-258 | that case as an offer: its parsed section lists payload type 0 in both places, its answer only in the m= line |
| SdpOffers.AudioOfferParsed | src/protocol/sdp.rs:78-129 | offers with one audio section, any direction and any mid, as the parser reads them |
| SdpOffers.MidOfferMisleads | src/protocol/sdp.rs:184-236 | the offer whose mid is its own m= line: the printed answer is not the answer's lines |
| SdpOffers.UfragOfferMisleads | src/protocol/sdp.rs:149-236 | nor is it when the ufrag is the m= line, also with a token as mid |
| SdpOffers.UfragAddsSection | src/protocol/sdp.rs:286-353 | with a ufrag of two lines whose second starts with m=, the renegotiated answer to one inactive section has not one media section |
| ClientUfrags.GeneratedIsClean | src/protocol/sdp.rs:373-380 | a ufrag that the server generated, and mids without an equals sign, so all SDP tokens, mislead no patch and add no line |
| ClientUfrags.JoinAndRenegotiate | src/protocol/protocol.rs:268 | a join without an offer, then a renegotiation: the answer prints the ufrag that the client chose |
| ClientUfrags.UfragMisleadsPatch | src/protocol/protocol.rs:667-736 | the first failing case with the handlers: the m= line as ufrag misleads the patch of the answer |
| ClientUfrags.UfragAddsMediaSection | src/protocol/protocol.rs:667-736 | the second: a second line that starts with m= adds a media section, and the answer announces nothing as it should |
| SdpRenego.BuildSdpAnswerForRenego | src/protocol/sdp.rs:286-353 | the second loop with its two flags computes the announced lines; without mappings the base text |
| SdpRenego.EraseGivesBase | src/protocol/sdp.rs:319-352 | for single-line values and patches that are right, erasing the a=ssrc lines gives back the base answer |
| SdpRenego.OneMidBlock | src/protocol/sdp.rs:324-349 | a section with one a=mid line gets exactly one a=ssrc line, in front of an end-of-candidates line, iff its mid is mapped |
| SdpRenego.NoMidBlock | src/protocol/sdp.rs:324-349 | a section without an a=mid line gets none |
| SdpRenego.BlockSsrcLines | src/protocol/sdp.rs:324-349 | the a=ssrc lines of a section: the one of its mid or none |
| SdpRenego.SectionResets | src/protocol/sdp.rs:326-329 | what is inserted in a section does not depend on those before it |
| SdpRenego.RenegoIsBlocks | src/protocol/sdp.rs:319-352 | for the same values the text is the header and the sections, each with its own insertion, and nothing is inserted elsewhere |
| SdpRenego.RenegoGroups | src/protocol/sdp.rs:319-352 | for single-line values and patches that are right, media section k of the text, from its m= line to the next, is the block of offered section k |
| SdpRenego.GroupPerSection | src/protocol/sdp.rs:286-353 | for every ufrag and all mappings, the text has one media section per offered one iff no line of the ufrag behind its first starts with m= |
| SdpRenego.RenegoKeepsMedia | src/protocol/sdp.rs:319-352 | the second pass adds and drops no m= line of any text |
| SdpRenego.RenegoReparses | src/protocol/sdp.rs:286-353 | for the same values the renegotiated answer is read as the same sections as the base answer |
| SdpRenego.SsrcReadBack | src/protocol/sdp.rs:340 | the printed SSRC is read back from its line |

## Left out

- ChannelViews.ViewIsHolder: takes each handler with its dispatch as one step and needs the member registered; packets of two handlers that interleave after their locks are dropped may arrive in another order.
- SdpReparse.BundleListsTheMids: needs every section to have a mid that is an SDP token, as the BUNDLE line does.
- Renegotiation.RenegoAnnounces: single-line values and right patches are asked for; which announcements of a ufrag with extra lines stay right is said only for their number of sections.
- Renegotiation.HandleRenegotiate: a ufrag is bytes, printed as one character each, which is the text for ASCII.
- ChannelViews.CleanupFreesChannel: one session per user; of two sessions of a user only `Sessions.OlderSessionUnregistersNewer` speaks.
- AddressIndex.Sections.LookUp: one latch at a time, since only the sequential UDP loop latches.
- UdpLoop.Loop.StartDtlsHandshake: nobody reads the session's queue while it is filled, as in the code; what the handshake task reads afterwards is not modelled.
- UdpLoop.Loop.Inject: completes at once on an open session; the wait of a full channel whose reader runs is left out.
- Renegotiation.HandleRenegotiate: its allocations run without another one for the same key in between; `RacingAllocations` says what happens otherwise.
- Renegotiation.AnnouncedSsrcIsRelayed: consumer SSRCs are not claimed to be distinct, and the receiver's endpoints in the channel have latched.
- Clocks: one reading per critical section, timestamps without an upper bound, no 64-bit wrap-around.
- Inboxes hold floor packets, in their order per channel; their order across channels, other channel events, acknowledgements and chat messages are left out, and so is a send that fails on a closed session.
- Tracing of floor and media events.
- A repeated IDENTIFY on one session, token checks, heartbeats and the choice of silent users and endpoints.
- DTLS handshake, certificates, SRTP and SRTCP: relayed payloads are what is handed to encryption.
- HMAC-SHA1 and CRC-32 are parameters; random SSRCs, ufrags and passwords are inputs.
- JSON, WebSocket, HTTP routes other than the admin revoke, CORS, tracing and the command-line tools.
- Server-side values printed into SDP by `detect_local_ip` and the session clock are the fields of `SdpAnswer.Env`.
