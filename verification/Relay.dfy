/**
 * Relaying one decrypted RTP packet (`relay_to_channel` of src/media/net.rs) and what a renegotiation does to
 * the consumer SSRCs (`handle_renegotiate` of src/protocol/protocol.rs). Encryption and sending are left out:
 * the result is the list of payloads handed to them, with their destinations.
 */
module Relay {
  import opened Basics
  import opened Bits
  import opened MediaPeers
  import opened FloorControls
  import opened FloorMachine
  import opened FloorHistory
  import Server = FloorServer

  /** An endpoint of the channel as the relay sees it. */
  datatype Peer = Peer(ufrag: Ufrag, userId: UserId, address: Option<Addr>)

  datatype Datagram = Datagram(to: Addr, receiver: UserId, payload: seq<byte>)

  // ------------------------------------------------------------------------
  // What is relayed
  // ------------------------------------------------------------------------

  /** Bytes 8 to 11 of an RTP header carry the SSRC (RFC 3550, section 5.1). */
  function WithSsrc(rtp: seq<byte>, ssrc: u32): seq<byte>
    requires |rtp| >= 12
  {
    rtp[..8] + Be32(ssrc) + rtp[12..]
  }

  lemma U32Inside(a: seq<byte>, b: seq<byte>, c: seq<byte>)
    requires |b| == 4
    ensures U32At(a + b + c, |a|) == U32At(b, 0)
  {
    hide Word;
    var w := a + b + c;
    assert w[|a|] == b[0] && w[|a| + 1] == b[1] && w[|a| + 2] == b[2] && w[|a| + 3] == b[3];
  }

  lemma WithSsrcCarriesSsrc(rtp: seq<byte>, ssrc: u32)
    requires |rtp| >= 12
    ensures U32At(WithSsrc(rtp, ssrc), 8) == ssrc
  {
    hide U32At;
    Be32Back(ssrc);
    U32Inside(rtp[..8], Be32(ssrc), rtp[12..]);
  }

  lemma WithSsrcKeepsLength(rtp: seq<byte>, ssrc: u32)
    requires |rtp| >= 12
    ensures |WithSsrc(rtp, ssrc)| == |rtp|
  {
  }

  /** Rewriting leaves every byte but those four as it was. */
  lemma WithSsrcKeepsOthers(rtp: seq<byte>, ssrc: u32, i: nat)
    requires 12 <= |rtp| && i < |rtp| && !(8 <= i < 12)
    ensures WithSsrc(rtp, ssrc)[i] == rtp[i]
  {
    hide Be32;
    if i >= 12 {
      assert rtp[12..][i - 12] == rtp[i];
    }
  }

  function FindUser(peers: seq<Peer>, user: UserId): (r: Option<Peer>)
    ensures r.Some? ==> r.value in peers && r.value.userId == user
    ensures r.None? ==> forall p :: p in peers ==> p.userId != user
  {
    if peers == [] then None
    else if peers[0].userId == user then Some(peers[0])
    else FindUser(peers[1..], user)
  }

  function RewrittenFor(peers: seq<Peer>, t: Target, rtp: seq<byte>): seq<Datagram>
    requires |rtp| >= 12
  {
    match FindUser(peers, t.receiver)
    case None => []
    case Some(p) => if p.address.Some? then [Datagram(p.address.value, t.receiver, WithSsrc(rtp, t.ssrc))] else []
  }

  /** One copy per target whose receiver is in the channel with an address, its SSRC rewritten. */
  function Rewritten(peers: seq<Peer>, targets: seq<Target>, rtp: seq<byte>): seq<Datagram>
    requires |rtp| >= 12
  {
    if targets == [] then []
    else Rewritten(peers, targets[..|targets| - 1], rtp) + RewrittenFor(peers, targets[|targets| - 1], rtp)
  }

  function EchoedTo(p: Peer, sender: Ufrag, rtp: seq<byte>): seq<Datagram> {
    if p.ufrag != sender && p.address.Some? then [Datagram(p.address.value, p.userId, rtp)] else []
  }

  /** One unchanged copy per other endpoint with an address. */
  function Echoed(peers: seq<Peer>, sender: Ufrag, rtp: seq<byte>): seq<Datagram> {
    if peers == [] then []
    else Echoed(peers[..|peers| - 1], sender, rtp) + EchoedTo(peers[|peers| - 1], sender, rtp)
  }

  function Relayed(granted: bool, conference: bool, peers: seq<Peer>, relay: RelayMap, sender: Ufrag, rtp: seq<byte>)
    : seq<Datagram>
  {
    if !granted then []
    else if conference && |rtp| >= 12 && TargetsOf(relay, U32At(rtp, 8)) != []
    then Rewritten(peers, TargetsOf(relay, U32At(rtp, 8)), rtp)
    else Echoed(peers, sender, rtp)
  }

  /** `d` is the rewritten copy for a target whose receiver is found with an address. */
  predicate IsCopyFor(d: Datagram, t: Target, peers: seq<Peer>, rtp: seq<byte>)
    requires |rtp| >= 12
  {
    && d.receiver == t.receiver && d.payload == WithSsrc(rtp, t.ssrc)
    && FindUser(peers, t.receiver).Some? && FindUser(peers, t.receiver).value.address == Some(d.to)
  }

  /** Exactly the targets whose receiver is found with an address get a rewritten copy, sent there. */
  lemma {:induction false} RewrittenMembers(peers: seq<Peer>, targets: seq<Target>, rtp: seq<byte>, d: Datagram)
    requires |rtp| >= 12
    ensures d in Rewritten(peers, targets, rtp) <==> exists t :: t in targets && IsCopyFor(d, t, peers, rtp)
  {
    if targets != [] {
      var n := |targets| - 1;
      RewrittenMembers(peers, targets[..n], rtp, d);
      assert targets == targets[..n] + [targets[n]];
      assert d in RewrittenFor(peers, targets[n], rtp) <==> IsCopyFor(d, targets[n], peers, rtp);
      hide RewrittenFor, IsCopyFor;
      if IsCopyFor(d, targets[n], peers, rtp) {
        assert targets[n] in targets;
      }
    }
  }

  /** Without a relay map entry every other reachable endpoint, and nobody else, gets the packet as it is. */
  lemma {:induction false} EchoedMembers(peers: seq<Peer>, sender: Ufrag, rtp: seq<byte>, d: Datagram)
    ensures d in Echoed(peers, sender, rtp) <==>
            exists p :: p in peers && p.ufrag != sender && p.address == Some(d.to) && d == Datagram(d.to, p.userId, rtp)
  {
    if peers != [] {
      var n := |peers| - 1;
      EchoedMembers(peers[..n], sender, rtp, d);
      assert peers == peers[..n] + [peers[n]];
    }
  }

  // ------------------------------------------------------------------------
  // Announced is relayed
  // ------------------------------------------------------------------------

  /** Every track of the channel under `ssrc` that `r` has a consumer SSRC for has consumer SSRC `c`. */
  predicate OneConsumer(sources: map<Ufrag, Source>, consumers: Consumers, channel: ChannelId, ssrc: u32, r: UserId,
                        c: u32)
  {
    forall u, i :: u in sources && sources[u].channelId == channel && 0 <= i < |sources[u].tracks|
                   && sources[u].tracks[i].ssrc == ssrc
                   && ConsumerKey(r, sources[u].userId, sources[u].tracks[i].kind) in consumers
                   ==> consumers[ConsumerKey(r, sources[u].userId, sources[u].tracks[i].kind)] == c
  }

  predicate OnlyTarget(relay: RelayMap, ssrc: u32, r: UserId, c: u32) {
    forall t :: t in TargetsOf(relay, ssrc) && t.receiver == r ==> t.ssrc == c
  }

  /** After a rebuild a track's SSRC is relayed to the receivers that have a consumer SSRC for its user and kind. */
  lemma TrackIsTarget(relay: RelayMap, sources: map<Ufrag, Source>, consumers: Consumers, channel: ChannelId,
                      r: UserId, u: Ufrag, i: nat)
    requires Rebuilt(relay, sources, consumers, channel)
    requires u in sources && sources[u].channelId == channel && i < |sources[u].tracks|
    requires ConsumerKey(r, sources[u].userId, sources[u].tracks[i].kind) in consumers
    ensures var key := ConsumerKey(r, sources[u].userId, sources[u].tracks[i].kind);
            Target(r, consumers[key]) in TargetsOf(relay, sources[u].tracks[i].ssrc)
  {
    var key := ConsumerKey(r, sources[u].userId, sources[u].tracks[i].kind);
    var ssrc := sources[u].tracks[i].ssrc;
    RebuiltTargets(relay, sources, consumers, channel, ssrc, Target(r, consumers[key]));
    assert IsFeed(Feed(u, i, key), sources, consumers, channel);
    assert Carries(Feed(u, i, key), sources, consumers, ssrc, Target(r, consumers[key]));
  }

  /**
   * After a rebuild an SSRC is relayed to `r` under `c` alone if and only if every track that runs under it in the
   * channel, whoever registered it, has consumer SSRC `c` for `r` or none.
   */
  lemma OnlyTargetIff(relay: RelayMap, sources: map<Ufrag, Source>, consumers: Consumers, channel: ChannelId,
                      ssrc: u32, r: UserId, c: u32)
    requires Rebuilt(relay, sources, consumers, channel)
    ensures OnlyTarget(relay, ssrc, r, c) <==> OneConsumer(sources, consumers, channel, ssrc, r, c)
  {
    hide Rebuilt, TargetsOf;
    if OneConsumer(sources, consumers, channel, ssrc, r, c) {
      forall t | t in TargetsOf(relay, ssrc) && t.receiver == r ensures t.ssrc == c {
        RebuiltTargets(relay, sources, consumers, channel, ssrc, t);
        var f :| IsFeed(f, sources, consumers, channel) && Carries(f, sources, consumers, ssrc, t);
        assert f.key == ConsumerKey(r, sources[f.ufrag].userId, sources[f.ufrag].tracks[f.index].kind);
      }
    }
    if OnlyTarget(relay, ssrc, r, c) {
      forall u, i | u in sources && sources[u].channelId == channel && 0 <= i < |sources[u].tracks|
                    && sources[u].tracks[i].ssrc == ssrc
                    && ConsumerKey(r, sources[u].userId, sources[u].tracks[i].kind) in consumers
        ensures consumers[ConsumerKey(r, sources[u].userId, sources[u].tracks[i].kind)] == c
      {
        TrackIsTarget(relay, sources, consumers, channel, r, u, i);
      }
    }
  }

  /** The failing case: two tracks under one SSRC for which `r` has different consumer SSRCs. */
  lemma SharedSsrcHasOtherTarget(relay: RelayMap, sources: map<Ufrag, Source>, consumers: Consumers,
                                 channel: ChannelId, ssrc: u32, r: UserId, u: Ufrag, i: nat, v: Ufrag, j: nat)
    requires Rebuilt(relay, sources, consumers, channel)
    requires u in sources && sources[u].channelId == channel && i < |sources[u].tracks|
    requires v in sources && sources[v].channelId == channel && j < |sources[v].tracks|
    requires sources[u].tracks[i].ssrc == ssrc == sources[v].tracks[j].ssrc
    requires var p := ConsumerKey(r, sources[u].userId, sources[u].tracks[i].kind);
             var q := ConsumerKey(r, sources[v].userId, sources[v].tracks[j].kind);
             p in consumers && q in consumers && consumers[p] != consumers[q]
    ensures var c := consumers[ConsumerKey(r, sources[u].userId, sources[u].tracks[i].kind)];
            exists t :: t in TargetsOf(relay, ssrc) && t.receiver == r && t.ssrc != c
  {
    hide Rebuilt, TargetsOf;
    TrackIsTarget(relay, sources, consumers, channel, r, v, j);
  }

  method GiveTrack(hub: MediaPeerHub, ep: MediaPeers.Endpoint, ssrc: u32)
    requires hub.Valid() && ep.tracks == []
    modifies ep`tracks
    ensures hub.Valid() && ep.tracks == [Track(ssrc, Audio)]
  {
    ep.AddTrack(ssrc, Audio);
  }

  /** An endpoint with one audio track. */
  method JoinWithTrack(hub: MediaPeerHub, ufrag: Ufrag, user: UserId, channel: ChannelId, ssrc: u32)
    requires hub.Valid()
    modifies hub`byUfrag
    ensures hub.Valid() && ufrag in hub.byUfrag && fresh(hub.byUfrag[ufrag])
    ensures hub.byUfrag == old(hub.byUfrag)[ufrag := hub.byUfrag[ufrag]]
    ensures hub.byUfrag[ufrag].AsSource() == Source(user, channel, [Track(ssrc, Audio)])
  {
    hide MediaPeerHub.Valid, MediaPeerHub.NoStale, MediaPeerHub.Tight;
    var ep := hub.Insert(ufrag, "", user, channel);
    GiveTrack(hub, ep, ssrc);
  }

  /** Two users of the channel register the same SSRC, which each endpoint refuses only for itself. */
  method ShareSsrc(hub: MediaPeerHub, channel: ChannelId, p: UserId, q: UserId, ssrc: u32)
    requires hub.Valid()
    modifies hub`byUfrag
    ensures hub.Valid()
    ensures [1] in hub.Sources() && hub.Sources()[[1]] == Source(p, channel, [Track(ssrc, Audio)])
    ensures [2] in hub.Sources() && hub.Sources()[[2]] == Source(q, channel, [Track(ssrc, Audio)])
  {
    hide MediaPeerHub.Valid;
    JoinWithTrack(hub, [1], p, channel, ssrc);
    JoinWithTrack(hub, [2], q, channel, ssrc);
  }

  /** The failing case: packets of a shared SSRC go to `r` under the consumer SSRCs of both users. */
  method SharedSsrcHasTwoTargets(hub: MediaPeerHub, channel: ChannelId, r: UserId, p: UserId, q: UserId, ssrc: u32)
    requires hub.Valid() && p != q && hub.consumers == map[]
    modifies hub
    ensures Target(r, 1) in TargetsOf(hub.relay, ssrc) && Target(r, 3) in TargetsOf(hub.relay, ssrc)
  {
    hide Rebuilt, Backed, TargetsOf, MediaPeerHub.Valid;
    ShareSsrc(hub, channel, p, q, ssrc);
    ghost var sources := hub.Sources();
    var first := hub.GetOrCreateConsumerSsrc(r, p, Audio, 0);
    var second := hub.GetOrCreateConsumerSsrc(r, q, Audio, 2);
    hub.RebuildRelayMap(channel);
    assert hub.Sources() == sources;
    TrackIsTarget(hub.relay, sources, hub.consumers, channel, r, [1], 0);
    TrackIsTarget(hub.relay, sources, hub.consumers, channel, r, [2], 0);
  }

  /** `payload` is `rtp` with SSRC `ssrc` in bytes 8 to 11. */
  predicate Rewrites(rtp: seq<byte>, payload: seq<byte>, ssrc: u32)
    requires |rtp| >= 12
  {
    && |payload| == |rtp| && U32At(payload, 8) == ssrc
    && forall k :: 0 <= k < |rtp| && !(8 <= k < 12) ==> payload[k] == rtp[k]
  }

  lemma WithSsrcRewrites(rtp: seq<byte>, c: u32, ssrc: u32)
    requires |rtp| >= 12
    ensures Rewrites(rtp, WithSsrc(rtp, c), ssrc) <==> c == ssrc
  {
    hide WithSsrc, U32At;
    WithSsrcCarriesSsrc(rtp, c);
    WithSsrcKeepsLength(rtp, c);
    forall k | 0 <= k < |rtp| && !(8 <= k < 12) ensures WithSsrc(rtp, c)[k] == rtp[k] {
      WithSsrcKeepsOthers(rtp, c, k);
    }
  }

  /**
   * The same on the wire: `r`, if it is found with an address, gets each conference packet of a track that it has
   * consumer SSRC `c` for with `c` in its header and nothing else changed; and it gets the packet in no other form
   * if and only if all tracks under the packet's SSRC have consumer SSRC `c` for `r` or none.
   */
  lemma AnnouncedIsRelayed(relay: RelayMap, sources: map<Ufrag, Source>, consumers: Consumers, channel: ChannelId,
                           peers: seq<Peer>, sender: Ufrag, r: UserId, u: Ufrag, i: nat, rtp: seq<byte>)
    requires Rebuilt(relay, sources, consumers, channel)
    requires u in sources && sources[u].channelId == channel && i < |sources[u].tracks|
    requires ConsumerKey(r, sources[u].userId, sources[u].tracks[i].kind) in consumers
    requires |rtp| >= 12 && U32At(rtp, 8) == sources[u].tracks[i].ssrc
    requires FindUser(peers, r).Some? && FindUser(peers, r).value.address.Some?
    ensures var out := Relayed(true, true, peers, relay, sender, rtp);
            var c := consumers[ConsumerKey(r, sources[u].userId, sources[u].tracks[i].kind)];
            && (exists d :: d in out && d.receiver == r && Rewrites(rtp, d.payload, c))
            && ((forall d :: d in out && d.receiver == r ==> Rewrites(rtp, d.payload, c))
                <==> OneConsumer(sources, consumers, channel, U32At(rtp, 8), r, c))
  {
    hide Rebuilt, WithSsrc, U32At, Rewrites, OneConsumer;
    var ssrc := U32At(rtp, 8);
    var c := consumers[ConsumerKey(r, sources[u].userId, sources[u].tracks[i].kind)];
    TrackIsTarget(relay, sources, consumers, channel, r, u, i);
    OnlyTargetIff(relay, sources, consumers, channel, ssrc, r, c);
    assert Relayed(true, true, peers, relay, sender, rtp) == Rewritten(peers, TargetsOf(relay, ssrc), rtp);
    RewrittenToward(peers, TargetsOf(relay, ssrc), rtp, r, c);
  }

  /** What the copies toward `r` look like. */
  lemma RewrittenToward(peers: seq<Peer>, targets: seq<Target>, rtp: seq<byte>, r: UserId, c: u32)
    requires |rtp| >= 12 && Target(r, c) in targets
    requires FindUser(peers, r).Some? && FindUser(peers, r).value.address.Some?
    ensures var out := Rewritten(peers, targets, rtp);
            && (exists d :: d in out && d.receiver == r && Rewrites(rtp, d.payload, c))
            && ((forall d :: d in out && d.receiver == r ==> Rewrites(rtp, d.payload, c))
                <==> forall t :: t in targets && t.receiver == r ==> t.ssrc == c)
  {
    hide WithSsrc, Rewrites, Rewritten;
    var out, to := Rewritten(peers, targets, rtp), FindUser(peers, r).value.address.value;
    forall t | t in targets && t.receiver == r
      ensures Datagram(to, r, WithSsrc(rtp, t.ssrc)) in out
      ensures Rewrites(rtp, WithSsrc(rtp, t.ssrc), c) <==> t.ssrc == c
    {
      var d := Datagram(to, r, WithSsrc(rtp, t.ssrc));
      assert IsCopyFor(d, t, peers, rtp);
      RewrittenMembers(peers, targets, rtp, d);
      WithSsrcRewrites(rtp, t.ssrc, c);
    }
    forall d | d in out && d.receiver == r
      ensures exists t :: t in targets && t.receiver == r && d.payload == WithSsrc(rtp, t.ssrc)
    {
      RewrittenMembers(peers, targets, rtp, d);
    }
    var mine := Datagram(to, r, WithSsrc(rtp, c));
    assert mine in out;
  }

  // ------------------------------------------------------------------------
  // The relay
  // ------------------------------------------------------------------------

  function AsPeer(ep: Endpoint): Peer
    reads ep
  {
    Peer(ep.ufrag, ep.userId, ep.address)
  }

  /** The endpoints of a channel when the hash map is walked in the given order. */
  ghost function PeersIn(hub: MediaPeerHub, order: seq<Ufrag>, channel: ChannelId): seq<Peer>
    requires forall i :: 0 <= i < |order| ==> order[i] in hub.byUfrag
    reads hub, hub.byUfrag.Values
  {
    if order == [] then []
    else
      var before := PeersIn(hub, order[..|order| - 1], channel);
      var ep := hub.byUfrag[order[|order| - 1]];
      if ep.channelId == channel then before + [AsPeer(ep)] else before
  }

  /** `order` walks through every key once. */
  ghost predicate Enumerates(order: seq<Ufrag>, keys: set<Ufrag>) {
    && (forall u :: u in order <==> u in keys)
    && forall i, j :: 0 <= i < j < |order| ==> order[i] != order[j]
  }

  /** The peers are exactly the channel's endpoints on the way. */
  lemma {:induction false} PeersInMembers(hub: MediaPeerHub, order: seq<Ufrag>, channel: ChannelId, p: Peer)
    requires forall i :: 0 <= i < |order| ==> order[i] in hub.byUfrag
    ensures p in PeersIn(hub, order, channel)
            <==> exists u :: u in order && hub.byUfrag[u].channelId == channel && p == AsPeer(hub.byUfrag[u])
  {
    if order != [] {
      var n := |order| - 1;
      PeersInMembers(hub, order[..n], channel, p);
      assert order == order[..n] + [order[n]];
      assert order[n] in order;
    }
  }

  lemma PeerOnTheWay(hub: MediaPeerHub, order: seq<Ufrag>, channel: ChannelId, i: nat) returns (j: nat)
    requires hub.Valid() && forall k :: 0 <= k < |order| ==> order[k] in hub.byUfrag
    requires i < |PeersIn(hub, order, channel)|
    ensures j < |order| && PeersIn(hub, order, channel)[i].ufrag == order[j]
  {
    var p := PeersIn(hub, order, channel)[i];
    PeersInMembers(hub, order, channel, p);
    j :| 0 <= j < |order| && p == AsPeer(hub.byUfrag[order[j]]);
    var ep := hub.byUfrag[order[j]];
    assert p == AsPeer(ep);
    assert AsPeer(ep) == Peer(ep.ufrag, ep.userId, ep.address);
    assert ep.ufrag == order[j];
  }

  predicate DistinctPeers(peers: seq<Peer>) {
    forall i, j :: 0 <= i < j < |peers| ==> peers[i].ufrag != peers[j].ufrag
  }

  lemma DistinctSnoc(peers: seq<Peer>, p: Peer)
    requires DistinctPeers(peers) && forall i :: 0 <= i < |peers| ==> peers[i].ufrag != p.ufrag
    ensures DistinctPeers(peers + [p])
  {
  }

  /** No endpoint is listed twice. */
  lemma {:induction false} PeersInDistinct(hub: MediaPeerHub, order: seq<Ufrag>, channel: ChannelId)
    requires hub.Valid() && forall i :: 0 <= i < |order| ==> order[i] in hub.byUfrag
    requires forall i, j :: 0 <= i < j < |order| ==> order[i] != order[j]
    ensures DistinctPeers(PeersIn(hub, order, channel))
  {
    hide DistinctPeers, Backed;
    if order == [] {
      assert DistinctPeers([]) by { NoPeers(); }
    } else {
      var n := |order| - 1;
      var before, ep := PeersIn(hub, order[..n], channel), hub.byUfrag[order[n]];
      var last := Peer(ep.ufrag, ep.userId, ep.address);
      PeersInDistinct(hub, order[..n], channel);
      assert AsPeer(ep) == last;
      forall i | 0 <= i < |before| ensures before[i].ufrag != last.ufrag {
        var j := PeerOnTheWay(hub, order[..n], channel, i);
      }
      DistinctSnoc(before, last);
    }
  }

  lemma NoPeers()
    ensures DistinctPeers([])
  {
  }

  /** `r` has endpoints in the channel, all of them latched. */
  ghost predicate Reachable(hub: MediaPeerHub, channel: ChannelId, r: UserId)
    reads hub, hub.byUfrag.Values
  {
    && (exists u :: u in hub.byUfrag && hub.byUfrag[u].channelId == channel && hub.byUfrag[u].userId == r)
    && forall u :: u in hub.byUfrag && hub.byUfrag[u].channelId == channel && hub.byUfrag[u].userId == r
                   ==> hub.byUfrag[u].address.Some?
  }

  /** Whatever the order of the hash map, a reachable user is found with an address. */
  lemma ReachableIsFound(hub: MediaPeerHub, order: seq<Ufrag>, channel: ChannelId, r: UserId)
    requires Enumerates(order, hub.byUfrag.Keys) && Reachable(hub, channel, r)
    ensures FindUser(PeersIn(hub, order, channel), r).Some?
            && FindUser(PeersIn(hub, order, channel), r).value.address.Some?
  {
    hide PeersIn;
    var peers := PeersIn(hub, order, channel);
    var u :| u in hub.byUfrag && hub.byUfrag[u].channelId == channel && hub.byUfrag[u].userId == r;
    PeersInMembers(hub, order, channel, AsPeer(hub.byUfrag[u]));
    var found := FindUser(peers, r).value;
    PeersInMembers(hub, order, channel, found);
  }

  /** Every set of keys has an order. */
  lemma {:induction false} OrderOf(keys: set<Ufrag>) returns (order: seq<Ufrag>)
    ensures Enumerates(order, keys)
    decreases keys
  {
    if keys == {} {
      order := [];
    } else {
      var u :| u in keys;
      var rest := OrderOf(keys - {u});
      order := [u] + rest;
    }
  }

  predicate Found(peers: seq<Peer>, r: UserId) {
    FindUser(peers, r).Some? && FindUser(peers, r).value.address.Some?
  }

  predicate Receives(out: seq<Datagram>, r: UserId) {
    exists d :: d in out && d.receiver == r
  }

  lemma ReceivesIffFound(peers: seq<Peer>, targets: seq<Target>, rtp: seq<byte>, t: Target)
    requires |rtp| >= 12 && t in targets
    ensures Receives(Rewritten(peers, targets, rtp), t.receiver) <==> Found(peers, t.receiver)
  {
    hide Rewritten, WithSsrc;
    if Found(peers, t.receiver) {
      var d := Datagram(FindUser(peers, t.receiver).value.address.value, t.receiver, WithSsrc(rtp, t.ssrc));
      assert IsCopyFor(d, t, peers, rtp);
      RewrittenMembers(peers, targets, rtp, d);
    }
    if d :| d in Rewritten(peers, targets, rtp) && d.receiver == t.receiver {
      RewrittenMembers(peers, targets, rtp, d);
    }
  }

  /**
   * The receiver of a target gets a copy of every packet in every order of the hash map if and only if it is
   * reachable: it has endpoints in the channel and all of them have latched.
   */
  lemma ReceivesIffReachable(hub: MediaPeerHub, channel: ChannelId, targets: seq<Target>, t: Target, rtp: seq<byte>)
    requires |rtp| >= 12 && t in targets
    ensures (forall order :: Enumerates(order, hub.byUfrag.Keys) ==>
               Receives(Rewritten(PeersIn(hub, order, channel), targets, rtp), t.receiver))
            <==> Reachable(hub, channel, t.receiver)
  {
    hide Receives, Rewritten, Found;
    var r := t.receiver;
    if Reachable(hub, channel, r) {
      forall order | Enumerates(order, hub.byUfrag.Keys)
        ensures Receives(Rewritten(PeersIn(hub, order, channel), targets, rtp), r)
      {
        AlwaysFound(hub, order, channel, r);
        ReceivesIffFound(PeersIn(hub, order, channel), targets, rtp, t);
      }
    } else {
      var order := UnluckyOrder(hub, channel, r);
      ReceivesIffFound(PeersIn(hub, order, channel), targets, rtp, t);
    }
  }

  lemma AlwaysFound(hub: MediaPeerHub, order: seq<Ufrag>, channel: ChannelId, r: UserId)
    requires Enumerates(order, hub.byUfrag.Keys) && Reachable(hub, channel, r)
    ensures Found(PeersIn(hub, order, channel), r)
  {
    ReachableIsFound(hub, order, channel, r);
  }

  /** For an unreachable user: an order in which it is not found, or found without an address. */
  lemma UnluckyOrder(hub: MediaPeerHub, channel: ChannelId, r: UserId) returns (order: seq<Ufrag>)
    requires !Reachable(hub, channel, r)
    ensures Enumerates(order, hub.byUfrag.Keys)
    ensures !Found(PeersIn(hub, order, channel), r)
  {
    if u :| u in hub.byUfrag && hub.byUfrag[u].channelId == channel && hub.byUfrag[u].userId == r
            && hub.byUfrag[u].address.None? {
      var rest := OrderOf(hub.byUfrag.Keys - {u});
      order := [u] + rest;
      assert forall i :: 0 <= i < |rest| ==> rest[i] in rest && rest[i] in hub.byUfrag.Keys - {u};
      FirstPeer(hub, u, rest, channel);
    } else {
      order := OrderOf(hub.byUfrag.Keys);
      var found := FindUser(PeersIn(hub, order, channel), r);
      if found.Some? {
        PeersInMembers(hub, order, channel, found.value);
      }
    }
  }

  lemma {:induction false} FirstPeer(hub: MediaPeerHub, u: Ufrag, rest: seq<Ufrag>, channel: ChannelId)
    requires u in hub.byUfrag && hub.byUfrag[u].channelId == channel
    requires forall i :: 0 <= i < |rest| ==> rest[i] in hub.byUfrag
    ensures var peers := PeersIn(hub, [u] + rest, channel); peers != [] && peers[0] == AsPeer(hub.byUfrag[u])
  {
    var order := [u] + rest;
    if rest == [] {
      assert order[..0] == [];
    } else {
      var n := |rest| - 1;
      FirstPeer(hub, u, rest[..n], channel);
      assert order[..|order| - 1] == [u] + rest[..n];
    }
  }

  /** Endpoint `u` is another one of the channel, and it has an address. */
  predicate Hears(hub: MediaPeerHub, channel: ChannelId, sender: Ufrag, u: Ufrag)
    reads hub, hub.byUfrag.Values
  {
    u in hub.byUfrag && u != sender && hub.byUfrag[u].channelId == channel && hub.byUfrag[u].address.Some?
  }

  /** `d` is the unchanged packet, sent to another endpoint of the channel at its address. */
  ghost predicate IsEcho(hub: MediaPeerHub, channel: ChannelId, sender: Ufrag, rtp: seq<byte>, d: Datagram)
    reads hub, hub.byUfrag.Values
  {
    exists u :: Hears(hub, channel, sender, u)
                && d == Datagram(hub.byUfrag[u].address.value, hub.byUfrag[u].userId, rtp)
  }

  /** Whatever the order of the hash map, an echo reaches exactly the channel's other endpoints with an address. */
  lemma EchoedFromHub(hub: MediaPeerHub, order: seq<Ufrag>, channel: ChannelId, sender: Ufrag, rtp: seq<byte>,
                      d: Datagram)
    requires hub.Keyed() && Enumerates(order, hub.byUfrag.Keys)
    ensures d in Echoed(PeersIn(hub, order, channel), sender, rtp) <==> IsEcho(hub, channel, sender, rtp, d)
  {
    hide PeersIn, Echoed;
    var peers := PeersIn(hub, order, channel);
    EchoedMembers(peers, sender, rtp, d);
    forall p ensures p in peers <==>
      exists u :: u in order && hub.byUfrag[u].channelId == channel && p == AsPeer(hub.byUfrag[u])
    {
      PeersInMembers(hub, order, channel, p);
    }
    if d in Echoed(peers, sender, rtp) {
      var p :| p in peers && p.ufrag != sender && p.address == Some(d.to) && d == Datagram(d.to, p.userId, rtp);
      var u :| u in order && hub.byUfrag[u].channelId == channel && p == AsPeer(hub.byUfrag[u]);
      assert u in hub.byUfrag;
    }
    if u :| Hears(hub, channel, sender, u)
            && d == Datagram(hub.byUfrag[u].address.value, hub.byUfrag[u].userId, rtp) {
      assert u in order && AsPeer(hub.byUfrag[u]) in peers;
    }
  }

  function Hearing(hub: MediaPeerHub, order: seq<Ufrag>, channel: ChannelId, sender: Ufrag): set<Ufrag>
    reads hub, hub.byUfrag.Values
  {
    set u | u in order && Hears(hub, channel, sender, u)
  }

  lemma HearingSnoc(hub: MediaPeerHub, before: seq<Ufrag>, u: Ufrag, channel: ChannelId, sender: Ufrag)
    requires u !in before
    ensures |Hearing(hub, before + [u], channel, sender)|
            == |Hearing(hub, before, channel, sender)| + if Hears(hub, channel, sender, u) then 1 else 0
  {
    hide Hears;
    var hearing := Hearing(hub, before, channel, sender);
    assert Hearing(hub, before + [u], channel, sender)
           == hearing + if Hears(hub, channel, sender, u) then {u} else {};
  }

  /** It reaches each of them once. */
  lemma {:induction false} EchoedOnce(hub: MediaPeerHub, order: seq<Ufrag>, channel: ChannelId, sender: Ufrag,
                                      rtp: seq<byte>)
    requires hub.Keyed() && forall i :: 0 <= i < |order| ==> order[i] in hub.byUfrag
    requires forall i, j :: 0 <= i < j < |order| ==> order[i] != order[j]
    ensures |Echoed(PeersIn(hub, order, channel), sender, rtp)| == |Hearing(hub, order, channel, sender)|
  {
    if order != [] {
      var n := |order| - 1;
      var before, u, ep := order[..n], order[n], hub.byUfrag[order[n]];
      EchoedOnce(hub, before, channel, sender, rtp);
      assert order == before + [u] && u !in before;
      HearingSnoc(hub, before, u, channel, sender);
      assert AsPeer(ep) == Peer(u, ep.userId, ep.address);
      EchoedSnoc(PeersIn(hub, before, channel), AsPeer(ep), sender, rtp);
      hide Hearing, Echoed;
    }
  }

  lemma EchoedSnoc(peers: seq<Peer>, p: Peer, sender: Ufrag, rtp: seq<byte>)
    ensures Echoed(peers + [p], sender, rtp) == Echoed(peers, sender, rtp) + EchoedTo(p, sender, rtp)
  {
    assert (peers + [p])[..|peers|] == peers;
  }

  function FoundTargets(peers: seq<Peer>, targets: seq<Target>): set<nat> {
    set i: nat | i < |targets| && Found(peers, targets[i].receiver)
  }

  lemma FoundSnoc(peers: seq<Peer>, targets: seq<Target>, t: Target)
    ensures |FoundTargets(peers, targets + [t])|
            == |FoundTargets(peers, targets)| + if Found(peers, t.receiver) then 1 else 0
  {
    hide Found;
    assert FoundTargets(peers, targets + [t])
           == FoundTargets(peers, targets) + if Found(peers, t.receiver) then {|targets|} else {};
  }

  /** Each target that is found with an address gets one copy. */
  lemma {:induction false} RewrittenOnce(peers: seq<Peer>, targets: seq<Target>, rtp: seq<byte>)
    requires |rtp| >= 12
    ensures |Rewritten(peers, targets, rtp)| == |FoundTargets(peers, targets)|
  {
    if targets != [] {
      var n := |targets| - 1;
      RewrittenOnce(peers, targets[..n], rtp);
      assert targets == targets[..n] + [targets[n]];
      FoundSnoc(peers, targets[..n], targets[n]);
      hide FoundTargets, WithSsrc;
    }
  }

  method GetChannelPeers(hub: MediaPeerHub, order: seq<Ufrag>, channel: ChannelId) returns (peers: seq<Peer>)
    requires forall i :: 0 <= i < |order| ==> order[i] in hub.byUfrag
    ensures peers == PeersIn(hub, order, channel)
  {
    peers := [];
    for i := 0 to |order|
      invariant peers == PeersIn(hub, order[..i], channel)
    {
      assert order[..i + 1][..i] == order[..i];
      var ep := hub.byUfrag[order[i]];
      if ep.channelId == channel {
        peers := peers + [Peer(ep.ufrag, ep.userId, ep.address)];
      }
    }
    assert order[..|order|] == order;
  }

  method Find(peers: seq<Peer>, user: UserId) returns (r: Option<Peer>)
    ensures r == FindUser(peers, user)
  {
    for i := 0 to |peers|
      invariant FindUser(peers, user) == FindUser(peers[i..], user)
    {
      if peers[i].userId == user {
        return Some(peers[i]);
      }
      assert peers[i..][1..] == peers[i + 1..];
    }
    return None;
  }

  method RewriteAll(peers: seq<Peer>, targets: seq<Target>, rtp: seq<byte>) returns (out: seq<Datagram>)
    requires |rtp| >= 12
    ensures out == Rewritten(peers, targets, rtp)
  {
    hide Be32;
    out := [];
    for i := 0 to |targets|
      invariant out == Rewritten(peers, targets[..i], rtp)
    {
      assert targets[..i + 1][..i] == targets[..i];
      var target := Find(peers, targets[i].receiver);
      if target.Some? && target.value.address.Some? {
        var copy := rtp[..8] + Be32(targets[i].ssrc) + rtp[12..];
        out := out + [Datagram(target.value.address.value, targets[i].receiver, copy)];
      }
    }
    assert targets[..|targets|] == targets;
  }

  method Echo(peers: seq<Peer>, sender: Ufrag, rtp: seq<byte>) returns (out: seq<Datagram>)
    ensures out == Echoed(peers, sender, rtp)
  {
    out := [];
    for i := 0 to |peers|
      invariant out == Echoed(peers[..i], sender, rtp)
    {
      assert peers[..i + 1][..i] == peers[..i];
      if peers[i].ufrag != sender && peers[i].address.Some? {
        out := out + [Datagram(peers[i].address.value, peers[i].userId, rtp)];
      }
    }
    assert peers[..|peers|] == peers;
  }

  /** The targets of a packet's SSRC; a packet without a whole header has none. */
  function RelayTargets(relay: RelayMap, rtp: seq<byte>): seq<Target> {
    if |rtp| >= 12 then TargetsOf(relay, U32At(rtp, 8)) else []
  }

  /** For every order of the hash map: the floor gate in a PTT channel, SSRC rewriting or an echo otherwise. */
  method RelayToChannel(channels: Server.ChannelHub, hub: MediaPeerHub, order: seq<Ufrag>, id: ChannelId,
                        senderUser: UserId, sender: Ufrag, rtp: seq<byte>) returns (out: seq<Datagram>)
    requires hub.Keyed() && Enumerates(order, hub.byUfrag.Keys)
    ensures id !in channels.channels ==> out == []
    ensures id in channels.channels && channels.channels[id].ptt ==>
              var floor := channels.channels[id].floor;
              forall d :: d in out <==>
                floor.phase.Taken? && floor.takenBy == Some(senderUser) && IsEcho(hub, id, sender, rtp, d)
    ensures id in channels.channels && !channels.channels[id].ptt ==>
              forall d :: d in out <==>
                if RelayTargets(hub.relay, rtp) == [] then IsEcho(hub, id, sender, rtp, d)
                else exists t :: t in RelayTargets(hub.relay, rtp) && IsCopyFor(d, t, PeersIn(hub, order, id), rtp)
    ensures id in channels.channels ==>
              var ch := channels.channels[id];
              out == Relayed(ch.ptt ==> MaySpeak(ch.floor.Value(), senderUser), !ch.ptt,
                             PeersIn(hub, order, id), hub.relay, sender, rtp)
  {
    hide PeersIn, Rewritten, Echoed, MediaPeerHub.Valid, TargetsOf, Server.ChannelHub.Valid;
    if id !in channels.channels {
      return [];
    }
    var ch := channels.channels[id];
    var granted := ch.MayRelay(senderUser);
    if !granted {
      return [];
    }
    var peers := GetChannelPeers(hub, order, id);
    out := [];
    if !ch.ptt && |rtp| >= 12 {
      var ssrc := ((Word(rtp[8], rtp[9]) as int) * 0x1_0000 + Word(rtp[10], rtp[11])) as u32;
      var targets := hub.GetRelayTargets(ssrc);
      if targets != [] {
        out := RewriteAll(peers, targets, rtp);
        forall d ensures d in out <==> exists t :: t in targets && IsCopyFor(d, t, peers, rtp) {
          RewrittenMembers(peers, targets, rtp, d);
        }
        return;
      }
    }
    out := Echo(peers, sender, rtp);
    forall d ensures d in out <==> IsEcho(hub, id, sender, rtp, d) {
      EchoedFromHub(hub, order, id, sender, rtp, d);
    }
  }

  /** A packet in a PTT channel: who sent it, what is in it, and whom the relay finds. */
  datatype Speech = Speech(user: UserId, sender: Ufrag, rtp: seq<byte>, peers: seq<Peer>, relay: RelayMap)

  /** What of it is relayed when the floor is `f`. */
  function Heard(f: Floor, s: Speech): seq<Datagram> {
    Relayed(MaySpeak(f, s.user), false, s.peers, s.relay, s.sender, s.rtp)
  }

  /** Between a packet relayed for one user and a later one relayed for another, that one is granted the floor. */
  lemma RelayedAreSeparatedByGrant(f: Floor, run: seq<Timed>, i: nat, j: nat, first: Speech, later: Speech)
    requires i <= j <= |run| && first.user != later.user
    requires Heard(StateAt(f, run, i), first) != [] && Heard(StateAt(f, run, j), later) != []
    ensures exists k :: i <= k < j && GrantSent(OutputAt(f, run, k), later.user)
  {
    SpeakersAreSeparatedByGrant(f, run, i, j, first.user, later.user);
  }

  /** A user is relayed only in a tenure that it was granted for an actual request of its own. */
  lemma RelayedIsGranted(run: seq<Timed>, i: nat, s: Speech) returns (r: nat, k: nat)
    requires i <= |run| && Heard(StateAt(NEW_FLOOR, run, i), s) != []
    ensures GrantFor(run, r, k) && run[r].event.user == s.user && Tenure(NEW_FLOOR, run, k, i, s.user)
  {
    r, k := HolderAsked(run, i);
  }

  // ------------------------------------------------------------------------
  // Renegotiation
  // ------------------------------------------------------------------------

  datatype MidMapEntry = MidMapEntry(mid: string, userId: UserId, kind: string)

  datatype SsrcMapping = SsrcMapping(mid: string, ssrc: u32)

  function TrackKindOf(kind: string): (r: Option<TrackKind>)
    ensures (r == Some(Audio) <==> kind == "audio") && (r == Some(Video) <==> kind == "video")
    ensures r.Some? ==> kind == "audio" || kind == "video"
  {
    if kind == "audio" then Some(Audio) else if kind == "video" then Some(Video) else None
  }

  /** The mapping of one entry: its mid and the consumer SSRC of the receiver for that peer and kind. */
  function MappingOf(e: MidMapEntry, receiver: UserId, consumers: Consumers): seq<SsrcMapping> {
    match TrackKindOf(e.kind)
    case None => []
    case Some(kind) =>
      var key := ConsumerKey(receiver, e.userId, kind);
      if key in consumers then [SsrcMapping(e.mid, consumers[key])] else []
  }

  function MappingsOf(entries: seq<MidMapEntry>, receiver: UserId, consumers: Consumers): seq<SsrcMapping> {
    if entries == [] then []
    else MappingsOf(entries[..|entries| - 1], receiver, consumers)
         + MappingOf(entries[|entries| - 1], receiver, consumers)
  }

  predicate AllAllocated(entries: seq<MidMapEntry>, receiver: UserId, consumers: Consumers) {
    forall i :: 0 <= i < |entries| && TrackKindOf(entries[i].kind).Some? ==>
      ConsumerKey(receiver, entries[i].userId, TrackKindOf(entries[i].kind).value) in consumers
  }

  lemma {:induction false} MappingsKept(entries: seq<MidMapEntry>, receiver: UserId, a: Consumers, b: Consumers)
    requires AllAllocated(entries, receiver, a) && forall key :: key in a ==> key in b && b[key] == a[key]
    ensures MappingsOf(entries, receiver, b) == MappingsOf(entries, receiver, a)
  {
    if entries != [] {
      MappingsKept(entries[..|entries| - 1], receiver, a, b);
    }
  }

  method AllocateEntry(hub: MediaPeerHub, receiver: UserId, e: MidMapEntry, random: u32) returns (m: seq<SsrcMapping>)
    requires hub.Valid()
    modifies hub`consumers
    ensures hub.Valid() && m == MappingOf(e, receiver, hub.consumers)
    ensures TrackKindOf(e.kind).Some? ==> ConsumerKey(receiver, e.userId, TrackKindOf(e.kind).value) in hub.consumers
    ensures forall k :: 0 <= k < |m| ==> m[k].ssrc > 0
    ensures forall key :: key in old(hub.consumers) ==>
              key in hub.consumers && hub.consumers[key] == old(hub.consumers)[key]
  {
    var kind := TrackKindOf(e.kind);
    if kind.None? {
      return [];
    }
    var ssrc := hub.GetOrCreateConsumerSsrc(receiver, e.userId, kind.value, random);
    m := [SsrcMapping(e.mid, ssrc)];
  }

  /** Allocates a consumer SSRC for every audio or video entry and keeps all those allocated before. */
  method AllocateAll(hub: MediaPeerHub, receiver: UserId, entries: seq<MidMapEntry>, randoms: seq<u32>)
    returns (mappings: seq<SsrcMapping>)
    requires hub.Valid() && |randoms| >= |entries|
    modifies hub`consumers
    ensures hub.Valid() && AllAllocated(entries, receiver, hub.consumers)
    ensures mappings == MappingsOf(entries, receiver, hub.consumers)
    ensures forall i :: 0 <= i < |mappings| ==> mappings[i].ssrc > 0
    ensures forall key :: key in old(hub.consumers) ==>
              key in hub.consumers && hub.consumers[key] == old(hub.consumers)[key]
  {
    hide MappingOf, TrackKindOf, MediaPeerHub.Valid;
    mappings := [];
    for i := 0 to |entries|
      invariant hub.Valid()
      invariant AllAllocated(entries[..i], receiver, hub.consumers)
      invariant mappings == MappingsOf(entries[..i], receiver, hub.consumers)
      invariant forall k :: 0 <= k < |mappings| ==> mappings[k].ssrc > 0
      invariant forall key :: key in old(hub.consumers) ==>
                  key in hub.consumers && hub.consumers[key] == old(hub.consumers)[key]
    {
      ghost var before := hub.consumers;
      var m := AllocateEntry(hub, receiver, entries[i], randoms[i]);
      MappingsKept(entries[..i], receiver, before, hub.consumers);
      assert entries[..i + 1][..i] == entries[..i];
      mappings := mappings + m;
    }
    assert entries[..|entries|] == entries;
  }
}
