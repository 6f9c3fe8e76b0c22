/**
 * Endpoints and their two indices, and the consumer SSRCs with the relay map derived from them:
 * src/core/media_peer.rs. Random SSRCs are parameters.
 */
module MediaPeers {
  import opened Basics

  type Ufrag = seq<byte>

  datatype Addr = V4(ip: u32, port: u16) | V6(ip6: string, port: u16)

  datatype TrackKind = Audio | Video | Data

  datatype Track = Track(ssrc: u32, kind: TrackKind)

  datatype ConsumerKey = ConsumerKey(receiver: UserId, sender: UserId, kind: TrackKind)

  type Consumers = map<ConsumerKey, u32>

  datatype Target = Target(receiver: UserId, ssrc: u32)

  type RelayMap = map<u32, seq<Target>>

  function TargetsOf(relay: RelayMap, ssrc: u32): seq<Target> {
    if ssrc in relay then relay[ssrc] else []
  }

  // ------------------------------------------------------------------------
  // What the relay map stands for
  // ------------------------------------------------------------------------

  /** The part of an endpoint that routing looks at. */
  datatype Source = Source(userId: UserId, channelId: ChannelId, tracks: seq<Track>)

  /** A track of an endpoint together with a consumer of it. */
  datatype Feed = Feed(ufrag: Ufrag, index: nat, key: ConsumerKey)

  predicate IsFeed(f: Feed, sources: map<Ufrag, Source>, consumers: Consumers, channel: ChannelId) {
    && f.ufrag in sources
    && sources[f.ufrag].channelId == channel
    && f.index < |sources[f.ufrag].tracks|
    && f.key in consumers
    && f.key.sender == sources[f.ufrag].userId
    && f.key.kind == sources[f.ufrag].tracks[f.index].kind
  }

  /** Feed `f` sends SSRC `ssrc` to `target`. */
  predicate Carries(f: Feed, sources: map<Ufrag, Source>, consumers: Consumers, ssrc: u32, target: Target) {
    && f.ufrag in sources && f.index < |sources[f.ufrag].tracks| && f.key in consumers
    && sources[f.ufrag].tracks[f.index].ssrc == ssrc
    && target == Target(f.key.receiver, consumers[f.key])
  }

  ghost function Carriers(feeds: set<Feed>, sources: map<Ufrag, Source>, consumers: Consumers,
                          ssrc: u32, target: Target): set<Feed> {
    set f | f in feeds && Carries(f, sources, consumers, ssrc, target)
  }

  /** The relay map holds each target of each SSRC as often as there are feeds in `feeds` carrying it. */
  ghost predicate Routes(relay: RelayMap, feeds: set<Feed>, sources: map<Ufrag, Source>, consumers: Consumers) {
    forall ssrc: u32, target: Target ::
      multiset(TargetsOf(relay, ssrc))[target] == |Carriers(feeds, sources, consumers, ssrc, target)|
  }

  lemma RouteMore(relay: RelayMap, feeds: set<Feed>, sources: map<Ufrag, Source>, consumers: Consumers,
                  f: Feed, channel: ChannelId)
    requires Routes(relay, feeds, sources, consumers)
    requires IsFeed(f, sources, consumers, channel) && f !in feeds
    ensures var ssrc := sources[f.ufrag].tracks[f.index].ssrc;
            var target := Target(f.key.receiver, consumers[f.key]);
            Routes(relay[ssrc := TargetsOf(relay, ssrc) + [target]], feeds + {f}, sources, consumers)
  {
    var s := sources[f.ufrag].tracks[f.index].ssrc;
    var t := Target(f.key.receiver, consumers[f.key]);
    var relay' := relay[s := TargetsOf(relay, s) + [t]];
    forall ssrc: u32, target: Target
      ensures multiset(TargetsOf(relay', ssrc))[target] == |Carriers(feeds + {f}, sources, consumers, ssrc, target)|
    {
      CarriersMore(feeds, sources, consumers, f, ssrc, target);
      if ssrc == s {
        assert multiset(TargetsOf(relay, s) + [t]) == multiset(TargetsOf(relay, s)) + multiset{t};
      } else {
        assert TargetsOf(relay', ssrc) == TargetsOf(relay, ssrc);
      }
    }
  }

  lemma CarriersMore(feeds: set<Feed>, sources: map<Ufrag, Source>, consumers: Consumers, f: Feed,
                     ssrc: u32, target: Target)
    requires f !in feeds
    ensures |Carriers(feeds + {f}, sources, consumers, ssrc, target)|
         == |Carriers(feeds, sources, consumers, ssrc, target)|
            + if Carries(f, sources, consumers, ssrc, target) then 1 else 0
  {
    var before := Carriers(feeds, sources, consumers, ssrc, target);
    var after := Carriers(feeds + {f}, sources, consumers, ssrc, target);
    if Carries(f, sources, consumers, ssrc, target) {
      assert after == before + {f};
    } else {
      assert after == before;
    }
  }

  /** Every feed of the channel, for the whole triple loop. */
  ghost predicate Complete(feeds: set<Feed>, sources: map<Ufrag, Source>, consumers: Consumers, channel: ChannelId) {
    forall f :: f in feeds <==> IsFeed(f, sources, consumers, channel)
  }

  /** The relay map is exactly the one the channel's endpoints and the consumer keys call for. */
  ghost predicate Rebuilt(relay: RelayMap, sources: map<Ufrag, Source>, consumers: Consumers, channel: ChannelId) {
    exists feeds :: Complete(feeds, sources, consumers, channel) && Routes(relay, feeds, sources, consumers)
  }

  /** A target is in a rebuilt map if and only if a track of the channel and a consumer key put it there. */
  lemma RebuiltTargets(relay: RelayMap, sources: map<Ufrag, Source>, consumers: Consumers, channel: ChannelId,
                       ssrc: u32, target: Target)
    requires Rebuilt(relay, sources, consumers, channel)
    ensures target in TargetsOf(relay, ssrc) <==>
            exists f :: IsFeed(f, sources, consumers, channel) && Carries(f, sources, consumers, ssrc, target)
  {
    var feeds :| Complete(feeds, sources, consumers, channel) && Routes(relay, feeds, sources, consumers);
    var carriers := Carriers(feeds, sources, consumers, ssrc, target);
    assert target in TargetsOf(relay, ssrc) <==> multiset(TargetsOf(relay, ssrc))[target] > 0;
    if f :| IsFeed(f, sources, consumers, channel) && Carries(f, sources, consumers, ssrc, target) {
      assert f in carriers;
    }
    if target in TargetsOf(relay, ssrc) {
      var f :| f in carriers;
    }
  }

  predicate HasConsumer(consumers: Consumers, target: Target) {
    exists key :: key in consumers && key.receiver == target.receiver && consumers[key] == target.ssrc
  }

  /** Every relay entry repeats the value of some consumer key of its receiver. */
  ghost predicate Backed(relay: RelayMap, consumers: Consumers) {
    forall ssrc: u32, target: Target :: target in TargetsOf(relay, ssrc) ==> HasConsumer(consumers, target)
  }

  lemma RebuiltIsBacked(relay: RelayMap, sources: map<Ufrag, Source>, consumers: Consumers, channel: ChannelId)
    requires Rebuilt(relay, sources, consumers, channel)
    ensures Backed(relay, consumers)
  {
    forall ssrc: u32, target: Target | target in TargetsOf(relay, ssrc)
      ensures HasConsumer(consumers, target)
    {
      RebuiltTargets(relay, sources, consumers, channel, ssrc, target);
      var f :| IsFeed(f, sources, consumers, channel) && Carries(f, sources, consumers, ssrc, target);
      assert f.key in consumers && f.key.receiver == target.receiver && consumers[f.key] == target.ssrc;
    }
  }

  /** Rebuilding for one channel forgets every SSRC that only other channels use. */
  lemma RebuildForgetsOtherChannels(relay: RelayMap, sources: map<Ufrag, Source>, consumers: Consumers,
                                    channel: ChannelId, ssrc: u32)
    requires Rebuilt(relay, sources, consumers, channel)
    requires forall u, i :: u in sources && sources[u].channelId == channel && 0 <= i < |sources[u].tracks|
                            ==> sources[u].tracks[i].ssrc != ssrc
    ensures TargetsOf(relay, ssrc) == []
  {
    if TargetsOf(relay, ssrc) != [] {
      var target := TargetsOf(relay, ssrc)[0];
      RebuiltTargets(relay, sources, consumers, channel, ssrc, target);
      assert false;
    }
  }

  /** No consumer key names `user` at either end. */
  ghost predicate NoConsumer(consumers: Consumers, user: UserId) {
    forall key :: key in consumers ==> key.receiver != user && key.sender != user
  }

  /** Once the consumer keys of a user are gone and the map is rebuilt, nothing is relayed to that user. */
  lemma NoTargetWithoutConsumer(relay: RelayMap, consumers: Consumers, user: UserId)
    requires Backed(relay, consumers) && NoConsumer(consumers, user)
    ensures forall ssrc: u32, target: Target :: target in TargetsOf(relay, ssrc) ==> target.receiver != user
  {
    forall ssrc: u32, target: Target | target in TargetsOf(relay, ssrc)
      ensures target.receiver != user
    {
      assert HasConsumer(consumers, target);
    }
  }

  // ------------------------------------------------------------------------
  // Endpoint
  // ------------------------------------------------------------------------

  class Endpoint {
    const ufrag: Ufrag
    const icePwd: string
    const userId: UserId
    const channelId: ChannelId
    var address: Option<Addr>
    var tracks: seq<Track>

    constructor (ufrag: Ufrag, icePwd: string, userId: UserId, channelId: ChannelId)
      ensures this.ufrag == ufrag && this.icePwd == icePwd && this.userId == userId && this.channelId == channelId
      ensures address == None && tracks == []
    {
      this.ufrag, this.icePwd, this.userId, this.channelId := ufrag, icePwd, userId, channelId;
      address, tracks := None, [];
    }

    function AsSource(): Source
      reads this
    {
      Source(userId, channelId, tracks)
    }

    ghost predicate DistinctSsrcs()
      reads this
    {
      forall i, j :: 0 <= i < j < |tracks| ==> tracks[i].ssrc != tracks[j].ssrc
    }

    method LatchAddress(addr: Addr)
      modifies this`address
      ensures address == Some(addr)
    {
      address := Some(addr);
    }

    method GetAddress() returns (r: Option<Addr>)
      ensures r == address
    {
      r := address;
    }

    /** Registers a track unless its SSRC is there already. */
    method AddTrack(ssrc: u32, kind: TrackKind)
      modifies this`tracks
      ensures (exists i :: 0 <= i < |old(tracks)| && old(tracks)[i].ssrc == ssrc) ==> tracks == old(tracks)
      ensures (forall i :: 0 <= i < |old(tracks)| ==> old(tracks)[i].ssrc != ssrc)
              ==> tracks == old(tracks) + [Track(ssrc, kind)]
      ensures old(DistinctSsrcs()) ==> DistinctSsrcs()
    {
      for i := 0 to |tracks|
        invariant tracks == old(tracks)
        invariant forall k :: 0 <= k < i ==> tracks[k].ssrc != ssrc
      {
        if tracks[i].ssrc == ssrc {
          return;
        }
      }
      tracks := tracks + [Track(ssrc, kind)];
    }
  }

  // ------------------------------------------------------------------------
  // MediaPeerHub
  // ------------------------------------------------------------------------

  /** `rand | 1`: never zero, and all other bits are as drawn. */
  function OddSsrc(random: u32): (r: u32)
    ensures r > 0 && r % 2 == 1 && r / 2 == random / 2
  {
    if random % 2 == 0 then random + 1 else random
  }

  /** The two inner loops of the rebuild: the tracks of one endpoint and, for each, the consumer keys. */
  method RouteEndpoint(relay: RelayMap, consumers: Consumers, userId: UserId, tracks: seq<Track>,
                       ghost u: Ufrag, ghost sources: map<Ufrag, Source>, ghost feeds: set<Feed>,
                       ghost channel: ChannelId)
    returns (out: RelayMap, ghost fed: set<Feed>)
    requires u in sources && sources[u] == Source(userId, channel, tracks)
    requires Routes(relay, feeds, sources, consumers) && forall f :: f in feeds ==> f.ufrag != u
    ensures Routes(out, fed, sources, consumers)
    ensures forall f :: f in fed <==> f in feeds || (f.ufrag == u && IsFeed(f, sources, consumers, channel))
  {
    out, fed := relay, feeds;
    for i := 0 to |tracks|
      invariant Routes(out, fed, sources, consumers)
      invariant forall f :: f in fed <==>
                  f in feeds || (f.ufrag == u && IsFeed(f, sources, consumers, channel) && f.index < i)
    {
      var keys := consumers.Keys;
      var track := tracks[i];
      while keys != {}
        invariant keys <= consumers.Keys
        invariant Routes(out, fed, sources, consumers)
        invariant forall f :: f in fed <==>
                    f in feeds || (f.ufrag == u && IsFeed(f, sources, consumers, channel)
                                   && (f.index < i || (f.index == i && f.key !in keys)))
        decreases keys
      {
        var key :| key in keys;
        keys := keys - {key};
        if key.sender == userId && key.kind == track.kind {
          RouteMore(out, fed, sources, consumers, Feed(u, i, key), channel);
          out := out[track.ssrc := TargetsOf(out, track.ssrc) + [Target(key.receiver, consumers[key])]];
          fed := fed + {Feed(u, i, key)};
        }
      }
    }
  }

  class MediaPeerHub {
    var byAddr: map<Addr, Endpoint>
    var byUfrag: map<Ufrag, Endpoint>
    var consumers: Consumers
    var relay: RelayMap

    /** The address index agrees with a scan of the live endpoints, and relay entries are backed by consumer keys. */
    ghost predicate Valid()
      reads this, byUfrag.Values
    {
      && Keyed()
      && AddressesIndexed()
      && (forall key :: key in consumers ==> consumers[key] > 0)
      && Backed(relay, consumers)
    }

    ghost predicate Keyed()
      reads this`byUfrag
    {
      forall u :: u in byUfrag ==> byUfrag[u].ufrag == u
    }

    /** Each live endpoint is what its own address looks up. */
    ghost predicate AddressesIndexed()
      reads this, byUfrag.Values
    {
      forall u :: u in byUfrag && byUfrag[u].address.Some? ==>
        byUfrag[u].address.value in byAddr && byAddr[byUfrag[u].address.value] == byUfrag[u]
    }

    ghost predicate Live(ep: Endpoint)
      reads this`byUfrag
    {
      ep.ufrag in byUfrag && byUfrag[ep.ufrag] == ep
    }

    /** Every indexed address looks up a live endpoint. */
    ghost predicate NoStale()
      reads this`byAddr, this`byUfrag
    {
      forall a :: a in byAddr ==> Live(byAddr[a])
    }

    /** Every indexed address looks up a live endpoint that still has that address. */
    ghost predicate Tight()
      reads this`byAddr, this`byUfrag, byAddr.Values
    {
      forall a :: a in byAddr ==> Live(byAddr[a]) && byAddr[a].address == Some(a)
    }

    ghost function Sources(): map<Ufrag, Source>
      reads this, byUfrag.Values
    {
      map u | u in byUfrag :: byUfrag[u].AsSource()
    }

    constructor ()
      ensures Valid() && byAddr == map[] && byUfrag == map[] && consumers == map[] && relay == map[]
    {
      byAddr, byUfrag, consumers, relay := map[], map[], map[], map[];
      new;
      assert forall ssrc: u32 :: TargetsOf(relay, ssrc) == [];
    }

    /** No two live endpoints have the same address. */
    lemma LiveAddressesDistinct(a: Endpoint, b: Endpoint)
      requires Valid() && Live(a) && Live(b) && a != b
      ensures a.address.None? || b.address.None? || a.address != b.address
    {
    }

    /**
     * Replaces an endpoint of the same ufrag. No address goes stale exactly when none looks up the replaced
     * endpoint; the index stays tight exactly when that one had no address.
     */
    method Insert(ufrag: Ufrag, icePwd: string, userId: UserId, channelId: ChannelId) returns (ep: Endpoint)
      modifies this`byUfrag
      ensures old(Valid()) ==> Valid()
      ensures fresh(ep) && ep.ufrag == ufrag && byUfrag == old(byUfrag)[ufrag := ep]
      ensures ep.icePwd == icePwd && ep.AsSource() == Source(userId, channelId, []) && ep.address == None
      ensures old(Keyed() && NoStale()) ==>
                (NoStale() <==> ufrag !in old(byUfrag) || forall a :: a in byAddr ==> byAddr[a] != old(byUfrag)[ufrag])
      ensures old(Valid() && Tight()) ==> (Tight() <==> ufrag !in old(byUfrag) || old(byUfrag[ufrag].address).None?)
    {
      ep := new Endpoint(ufrag, icePwd, userId, channelId);
      byUfrag := byUfrag[ufrag := ep];
    }

    // The sections that a latch and a removal lock separately.

    method FindByUfrag(ufrag: Ufrag) returns (ep: Option<Endpoint>)
      ensures ep == if ufrag in byUfrag then Some(byUfrag[ufrag]) else None
    {
      ep := if ufrag in byUfrag then Some(byUfrag[ufrag]) else None;
    }

    /** No address goes stale exactly when the endpoint is still live. */
    method Index(addr: Addr, ep: Endpoint)
      modifies this`byAddr
      ensures byAddr == old(byAddr)[addr := ep]
      ensures old(NoStale()) ==> (NoStale() <==> Live(ep))
    {
      byAddr := byAddr[addr := ep];
      assert addr in byAddr && forall a :: a in old(byAddr) && a != addr ==> byAddr[a] == old(byAddr)[a];
    }

    method Unregister(ufrag: Ufrag) returns (ep: Option<Endpoint>)
      modifies this`byUfrag
      ensures ep == if ufrag in old(byUfrag) then Some(old(byUfrag)[ufrag]) else None
      ensures byUfrag == old(byUfrag) - {ufrag}
    {
      ep := if ufrag in byUfrag then Some(byUfrag[ufrag]) else None;
      byUfrag := byUfrag - {ufrag};
    }

    method Unindex(addr: Addr)
      modifies this`byAddr
      ensures byAddr == old(byAddr) - {addr}
    {
      byAddr := byAddr - {addr};
    }

    /**
     * With nothing in between its sections, sets the address of the endpoint and indexes it. The old address of the
     * endpoint stays indexed. The index goes on agreeing with the endpoints exactly when no other live endpoint has
     * the address. No address goes stale by it; the index stays tight exactly when the endpoint has no other address
     * yet.
     */
    method Latch(ufrag: Ufrag, addr: Addr) returns (ep: Option<Endpoint>)
      requires Valid()
      modifies this`byAddr, if ufrag in byUfrag then {byUfrag[ufrag]} else {}
      ensures ufrag !in byUfrag ==> ep == None && byAddr == old(byAddr)
      ensures ufrag in byUfrag ==> ep == Some(byUfrag[ufrag]) && byAddr == old(byAddr)[addr := byUfrag[ufrag]]
                                   && byUfrag[ufrag].address == Some(addr)
                                   && byUfrag[ufrag].tracks == old(byUfrag[ufrag].tracks)
      ensures Valid() <==> ufrag !in byUfrag
                           || forall u :: u in byUfrag && u != ufrag ==> byUfrag[u].address != Some(addr)
      ensures ufrag in byUfrag ==>
                (NoStale() <==> forall a :: a in old(byAddr) && a != addr ==> Live(old(byAddr)[a]))
      ensures old(Tight()) ==>
                (Tight() <==> ufrag !in byUfrag || old(byUfrag[ufrag].address).None?
                              || old(byUfrag[ufrag].address) == Some(addr))
    {
      hide Backed;
      ep := FindByUfrag(ufrag);
      if ep.None? {
        return;
      }
      ep.value.LatchAddress(addr);
      Index(addr, ep.value);
      assert forall a :: a in old(byAddr) && a != addr ==> a in byAddr && byAddr[a] == old(byAddr)[a];
      assert forall u :: u in byUfrag && u != ufrag ==> byUfrag[u] != ep.value;
    }

    method GetByAddr(addr: Addr) returns (ep: Option<Endpoint>)
      ensures ep == if addr in byAddr then Some(byAddr[addr]) else None
    {
      ep := if addr in byAddr then Some(byAddr[addr]) else None;
    }

    /**
     * With nothing in between its sections, removing one endpoint leaves what every other live endpoint's address
     * looks up. No address goes stale exactly when none but the endpoint's own looks it up, as in a tight index, which
     * stays tight.
     */
    method Remove(ufrag: Ufrag)
      requires Valid()
      modifies this`byAddr, this`byUfrag
      ensures Valid() && byUfrag == old(byUfrag) - {ufrag}
      ensures byAddr == if ufrag in old(byUfrag) && old(byUfrag[ufrag].address).Some?
                        then old(byAddr) - {old(byUfrag[ufrag].address).value} else old(byAddr)
      ensures forall u :: u in byUfrag && byUfrag[u].address.Some? ==>
                byUfrag[u].address.value in byAddr && byAddr[byUfrag[u].address.value] == byUfrag[u]
      ensures old(NoStale()) ==>
                (NoStale() <==> ufrag !in old(byUfrag)
                                || forall a :: a in old(byAddr) && old(byAddr)[a] == old(byUfrag)[ufrag]
                                               ==> old(byUfrag[ufrag].address) == Some(a))
      ensures old(Tight()) ==> Tight()
    {
      assert ufrag !in byUfrag ==> byUfrag - {ufrag} == byUfrag;
      var ep := Unregister(ufrag);
      if ep.Some? {
        var addr := ep.value.GetAddress();
        if addr.Some? {
          Unindex(addr.value);
        }
        assert forall a :: a in old(byAddr) && addr != Some(a) ==> a in byAddr && byAddr[a] == old(byAddr)[a];
      }
    }

    /** First critical section of an allocation. */
    method FindConsumerSsrc(key: ConsumerKey) returns (ssrc: Option<u32>)
      ensures ssrc == if key in consumers then Some(consumers[key]) else None
    {
      ssrc := if key in consumers then Some(consumers[key]) else None;
    }

    /** Second critical section: stores a new SSRC, also over one that another handler stored meanwhile. */
    method StoreConsumerSsrc(key: ConsumerKey, random: u32) returns (ssrc: u32)
      modifies this`consumers
      ensures ssrc == OddSsrc(random) && consumers == old(consumers)[key := ssrc]
      ensures old(Valid()) && key !in old(consumers) ==> Valid()
    {
      ssrc := OddSsrc(random);
      if Backed(relay, consumers) && key !in consumers {
        BackedMore(relay, consumers, key, ssrc);
      }
      consumers := consumers[key := ssrc];
    }

    /** With nothing in between, allocates at most once: an existing consumer SSRC is returned as it is. */
    method GetOrCreateConsumerSsrc(receiver: UserId, sender: UserId, kind: TrackKind, random: u32) returns (ssrc: u32)
      requires Valid()
      modifies this`consumers
      ensures Valid() && ssrc > 0
      ensures var key := ConsumerKey(receiver, sender, kind);
              && (key in old(consumers) ==> consumers == old(consumers) && ssrc == consumers[key])
              && (key !in old(consumers) ==> ssrc == OddSsrc(random) && consumers == old(consumers)[key := ssrc])
    {
      var key := ConsumerKey(receiver, sender, kind);
      var found := FindConsumerSsrc(key);
      if found.Some? {
        return found.value;
      }
      ssrc := StoreConsumerSsrc(key, random);
    }

    /**
     * Two handlers that allocate for the same key and interleave between their critical sections: a new key keeps
     * the SSRC of the second, so the first returns one that is not stored unless both drew the same.
     */
    method RacingAllocations(key: ConsumerKey, random: u32, otherRandom: u32) returns (ssrc: u32, other: u32)
      modifies this`consumers
      ensures key in consumers && consumers[key] == other
      ensures ssrc == consumers[key] <==> key in old(consumers) || OddSsrc(random) == OddSsrc(otherRandom)
      ensures key in old(consumers) ==> consumers == old(consumers)
    {
      var first := FindConsumerSsrc(key);
      var second := FindConsumerSsrc(key);
      if first.Some? {
        ssrc := first.value;
      } else {
        ssrc := StoreConsumerSsrc(key, random);
      }
      if second.Some? {
        other := second.value;
      } else {
        other := StoreConsumerSsrc(key, otherRandom);
      }
    }

    lemma BackedMore(relay: RelayMap, consumers: Consumers, key: ConsumerKey, ssrc: u32)
      requires Backed(relay, consumers) && key !in consumers
      ensures Backed(relay, consumers[key := ssrc])
    {
      forall s: u32, target: Target | target in TargetsOf(relay, s)
        ensures HasConsumer(consumers[key := ssrc], target)
      {
        assert HasConsumer(consumers, target);
        var k :| k in consumers && k.receiver == target.receiver && consumers[k] == target.ssrc;
        assert k in consumers[key := ssrc];
      }
    }

    /** Clears the whole map, then fills it for one channel; the maps are walked in any order. */
    method RebuildRelayMap(channel: ChannelId)
      modifies this`relay
      ensures Rebuilt(relay, Sources(), consumers, channel)
      ensures Backed(relay, consumers)
    {
      var out: RelayMap := map[];
      ghost var sources, feeds: set<Feed> := Sources(), {};
      var rest := byUfrag.Keys;
      while rest != {}
        invariant rest <= byUfrag.Keys
        invariant forall f :: f in feeds <==> IsFeed(f, sources, consumers, channel) && f.ufrag !in rest
        invariant Routes(out, feeds, sources, consumers)
        modifies {}
        decreases rest
      {
        var u :| u in rest;
        rest := rest - {u};
        if byUfrag[u].channelId == channel {
          out, feeds := RouteEndpoint(out, consumers, byUfrag[u].userId, byUfrag[u].tracks, u, sources, feeds, channel);
        }
      }
      assert Complete(feeds, sources, consumers, channel);
      relay := out;
      assert Sources() == sources && Rebuilt(relay, sources, consumers, channel);
      RebuiltIsBacked(relay, sources, consumers, channel);
    }

    method GetRelayTargets(ssrc: u32) returns (targets: seq<Target>)
      ensures targets == TargetsOf(relay, ssrc)
    {
      targets := if ssrc in relay then relay[ssrc] else [];
    }

    /** Drops the consumer keys of `user`; the relay map is stale until it is rebuilt. */
    method RemoveConsumerSsrcForUser(user: UserId)
      modifies this`consumers
      ensures consumers == map key | key in old(consumers) && key.receiver != user && key.sender != user
                                   :: old(consumers)[key]
      ensures NoConsumer(consumers, user)
    {
      consumers := map key | key in consumers && key.receiver != user && key.sender != user :: consumers[key];
    }

    /** What CHANNEL_LEAVE and the end of a session do to the hub. */
    method Depart(ufrag: Ufrag, user: UserId, channel: ChannelId)
      requires Valid()
      modifies this
      ensures Valid() && byUfrag == old(byUfrag) - {ufrag} && (old(Tight()) ==> Tight())
      ensures NoConsumer(consumers, user)
      ensures forall key :: key in old(consumers) && key.receiver != user && key.sender != user
                            ==> key in consumers && consumers[key] == old(consumers)[key]
      ensures Rebuilt(relay, Sources(), consumers, channel)
      ensures forall ssrc: u32, target: Target :: target in TargetsOf(relay, ssrc) ==> target.receiver != user
    {
      Remove(ufrag);
      RemoveConsumerSsrcForUser(user);
      RebuildRelayMap(channel);
      NoTargetWithoutConsumer(relay, consumers, user);
    }
  }

  /** A new endpoint that latches a free address. */
  method JoinAndLatch(hub: MediaPeerHub, ufrag: Ufrag, a: Addr)
    requires hub.Valid() && a !in hub.byAddr
    modifies hub`byAddr, hub`byUfrag
    ensures hub.Valid() && ufrag in hub.byUfrag && fresh(hub.byUfrag[ufrag]) && hub.byUfrag[ufrag].ufrag == ufrag
    ensures hub.byUfrag[ufrag].address == Some(a) && hub.byAddr == old(hub.byAddr)[a := hub.byUfrag[ufrag]]
  {
    hide MediaPeerHub.NoStale, MediaPeerHub.Tight, Backed;
    var ep := hub.Insert(ufrag, "pwd", "user", "channel");
    assert forall u :: u in hub.byUfrag ==> hub.byUfrag[u].address != Some(a);
    var latched := hub.Latch(ufrag, a);
  }

  /**
   * An address that an endpoint has moved away from stays indexed, even after the endpoint is gone: from
   * then on it looks up an endpoint that is not live.
   */
  method MovedAddressStaysIndexed(hub: MediaPeerHub, a: Addr, b: Addr)
    requires hub.Valid() && a != b && a !in hub.byAddr && b !in hub.byAddr
    modifies hub`byAddr, hub`byUfrag
    ensures hub.Valid() && a in hub.byAddr && !hub.Live(hub.byAddr[a])
  {
    hide MediaPeerHub.Valid, MediaPeerHub.NoStale, MediaPeerHub.Tight;
    JoinAndLatch(hub, [7], a);
    MoveAndRemove(hub, [7], a, b);
  }

  method MoveAndRemove(hub: MediaPeerHub, ufrag: Ufrag, a: Addr, b: Addr)
    requires hub.Valid() && a != b && b !in hub.byAddr
    requires ufrag in hub.byUfrag && a in hub.byAddr && hub.byAddr[a] == hub.byUfrag[ufrag]
    modifies hub`byAddr, hub`byUfrag, hub.byUfrag[ufrag]
    ensures hub.Valid() && a in hub.byAddr && !hub.Live(hub.byAddr[a])
  {
    hide MediaPeerHub.NoStale, MediaPeerHub.Tight, Backed;
    assert forall u :: u in hub.byUfrag ==> hub.byUfrag[u].address != Some(b);
    var moved := hub.Latch(ufrag, b);
    hub.Remove(ufrag);
  }

  /** So does the address of an endpoint whose ufrag joins again, without any move. */
  method ReplacedAddressStaysIndexed(hub: MediaPeerHub, a: Addr)
    requires hub.Valid() && a !in hub.byAddr
    modifies hub`byAddr, hub`byUfrag
    ensures hub.Valid() && a in hub.byAddr && !hub.Live(hub.byAddr[a])
  {
    hide MediaPeerHub.Valid, MediaPeerHub.NoStale, MediaPeerHub.Tight;
    JoinAndLatch(hub, [7], a);
    var again := hub.Insert([7], "pwd", "user", "channel");
  }
}
