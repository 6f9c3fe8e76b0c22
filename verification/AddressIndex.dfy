/**
 * The address index at the granularity of its locks: `latch` and `remove` of src/core/media_peer.rs take the ufrag map,
 * the endpoint's address and the address map one after the other, and every section of one may fall between those of
 * others. One latch runs at a time, in the UDP loop, and any number of removals.
 */
module AddressIndex {
  import opened Basics
  import opened MediaPeers

  /** How far the latch of an address that was not indexed has come. */
  datatype Latching = Claimed(addr: Addr) | Found(addr: Addr, ep: Endpoint) | Moved(addr: Addr, ep: Endpoint)

  /** A removal whose endpoint is unregistered: before and after it reads the address to drop from the index. */
  datatype Removal = Unread(ep: Endpoint) | Read(ep: Endpoint, addr: Addr)

  class Sections {
    const hub: MediaPeerHub
    var latch: Option<Latching>
    var removing: set<Removal>
    /** Every endpoint that the hub, the latch or a removal holds. */
    ghost var endpoints: set<Endpoint>

    constructor (hub: MediaPeerHub)
      requires hub.Valid()
      ensures this.hub == hub && latch == None && removing == {} && endpoints == hub.byUfrag.Values && Sound()
    {
      this.hub, latch, removing := hub, None, {};
      endpoints := hub.byUfrag.Values;
    }

    // ------------------------------------------------------------------------
    // The invariant
    // ------------------------------------------------------------------------

    /** The latch has given the endpoint its address and not indexed it yet. */
    predicate Moving(ep: Endpoint)
      reads this`latch
    {
      latch.Some? && latch.value.Moved? && latch.value.ep == ep
    }

    /** Live, or being removed with its address not read yet. */
    ghost predicate Tracked(ep: Endpoint)
      reads this`removing, hub`byUfrag
    {
      hub.Live(ep) || Unread(ep) in removing
    }

    /** Every tracked endpoint, unless it is moving, is what its address looks up. */
    ghost predicate Indexed()
      reads this, hub`byUfrag, hub`byAddr, endpoints
    {
      forall ep :: ep in endpoints && Tracked(ep) && ep.address.Some? && !Moving(ep) ==>
        ep.address.value in hub.byAddr && hub.byAddr[ep.address.value] == ep
    }

    /** A removal will drop an entry of its own endpoint, or one that the latch is about to make. */
    ghost predicate Owned()
      reads this, hub`byAddr
    {
      forall r :: r in removing && r.Read? ==>
        (r.addr in hub.byAddr && hub.byAddr[r.addr] == r.ep) || latch == Some(Moved(r.addr, r.ep))
    }

    ghost predicate Holds()
      reads this, hub`byUfrag
    {
      && hub.byUfrag.Values <= endpoints
      && (forall r :: r in removing ==> r.ep in endpoints)
      && (latch.Some? && !latch.value.Claimed? ==> latch.value.ep in endpoints)
    }

    ghost predicate Sound()
      reads this, hub`byUfrag, hub`byAddr, endpoints
    {
      && hub.Keyed() && Holds()
      && (latch.Some? ==> latch.value.addr !in hub.byAddr)
      && (latch.Some? && latch.value.Moved? ==> latch.value.ep.address == Some(latch.value.addr))
      && (forall r :: r in removing ==> !hub.Live(r.ep))
      && (forall r, s :: r in removing && s in removing && r.ep == s.ep ==> r == s)
      && Indexed() && Owned()
    }

    // ------------------------------------------------------------------------
    // What it says
    // ------------------------------------------------------------------------

    /** In every state a live endpoint that is not just moving is what its own address looks up. */
    lemma LookupIsRight(ep: Endpoint)
      requires Sound() && hub.Live(ep) && ep.address.Some? && !Moving(ep)
      ensures ep.address.value in hub.byAddr && hub.byAddr[ep.address.value] == ep
    {
      assert ep in endpoints;
    }

    /** In every state, also in the middle of a latch, live endpoints have different addresses. */
    lemma LiveAddressesDiffer(a: Endpoint, b: Endpoint)
      requires Sound() && hub.Live(a) && hub.Live(b) && a != b && a.address.Some?
      ensures a.address != b.address
    {
      assert a in endpoints && b in endpoints;
    }

    // ------------------------------------------------------------------------
    // Entries that stay
    // ------------------------------------------------------------------------

    /** Some removal will drop the entry at `x`, as things stand. */
    predicate WillGo(x: Addr)
      requires x in hub.byAddr
      reads this, hub`byAddr, hub.byAddr.Values
    {
      Read(hub.byAddr[x], x) in removing || (Unread(hub.byAddr[x]) in removing && hub.byAddr[x].address == Some(x))
    }

    /** Every indexed address looks up a live endpoint or is about to be dropped. */
    ghost predicate NothingStays()
      reads this, hub`byUfrag, hub`byAddr, hub.byAddr.Values
    {
      forall x :: x in hub.byAddr ==> hub.Live(hub.byAddr[x]) || WillGo(x)
    }

    /** Between removals that is: every indexed address looks up a live endpoint. */
    lemma NothingStaysAtRest()
      requires removing == {}
      ensures NothingStays() <==> hub.NoStale()
    {
    }

    // ------------------------------------------------------------------------
    // The sections of a latch
    // ------------------------------------------------------------------------

    /** The lookup of the UDP loop; an address that is not indexed is to be latched. */
    method LookUp(addr: Addr) returns (known: Option<Endpoint>)
      requires Sound() && latch.None?
      modifies this`latch
      ensures Sound() && known == (if addr in hub.byAddr then Some(hub.byAddr[addr]) else None)
      ensures latch == if known.Some? then None else Some(Claimed(addr))
      ensures old(NothingStays()) ==> NothingStays()
    {
      known := hub.GetByAddr(addr);
      if known.None? {
        latch := Some(Claimed(addr));
      }
    }

    /** The request names no endpoint. */
    method Abandon()
      requires Sound() && latch.Some? && latch.value.Claimed?
      modifies this`latch
      ensures Sound() && latch == None
      ensures old(NothingStays()) ==> NothingStays()
    {
      latch := None;
    }

    method Find(ufrag: Ufrag) returns (ep: Option<Endpoint>)
      requires Sound() && latch.Some? && latch.value.Claimed?
      modifies this`latch
      ensures Sound() && ep == (if ufrag in hub.byUfrag then Some(hub.byUfrag[ufrag]) else None)
      ensures latch == if ep.Some? then Some(Found(old(latch).value.addr, ep.value)) else None
      ensures ep.Some? ==> ep.value in endpoints && ep.value.ufrag == ufrag
      ensures old(NothingStays()) ==> NothingStays()
    {
      ep := hub.FindByUfrag(ufrag);
      latch := if ep.Some? then Some(Found(latch.value.addr, ep.value)) else None;
    }

    /** An entry will stay exactly when a removal has not read the old address yet and that is indexed. */
    method SetAddress()
      requires Sound() && latch.Some? && latch.value.Found?
      modifies this`latch, latch.value.ep`address
      ensures Sound() && latch == Some(Moved(old(latch).value.addr, old(latch).value.ep))
      ensures old(latch).value.ep.address == Some(old(latch).value.addr)
      ensures old(NothingStays()) ==>
                (NothingStays() <==>
                   Unread(latch.value.ep) !in removing
                   || forall x :: x in hub.byAddr ==> hub.byAddr[x] != latch.value.ep)
    {
      var a, ep := latch.value.addr, latch.value.ep;
      ep.LatchAddress(a);
      latch := Some(Moved(a, ep));
    }

    /** The new entry will stay exactly when its endpoint is gone and no removal will drop it. */
    method Index()
      requires Sound() && latch.Some? && latch.value.Moved?
      modifies this`latch, hub`byAddr
      ensures Sound() && latch == None && hub.byAddr == old(hub.byAddr)[old(latch).value.addr := old(latch).value.ep]
      ensures var (a, ep) := (old(latch).value.addr, old(latch).value.ep);
              old(NothingStays()) ==>
                (NothingStays() <==> hub.Live(ep) || Unread(ep) in removing || Read(ep, a) in removing)
    {
      var a, ep := latch.value.addr, latch.value.ep;
      hub.Index(a, ep);
      latch := None;
      assert a in hub.byAddr;
      assert forall x :: x in old(hub.byAddr) ==> x in hub.byAddr && hub.byAddr[x] == old(hub.byAddr)[x];
    }

    // ------------------------------------------------------------------------
    // The sections of a removal, and a join
    // ------------------------------------------------------------------------

    /** An entry will stay exactly when another address than its own looks the endpoint up. */
    method Unregister(ufrag: Ufrag)
      requires Sound()
      modifies this`removing, hub`byUfrag
      ensures Sound() && hub.byUfrag == old(hub.byUfrag) - {ufrag}
      ensures removing == old(removing) + if ufrag in old(hub.byUfrag) then {Unread(old(hub.byUfrag)[ufrag])} else {}
      ensures old(NothingStays()) ==>
                (NothingStays() <==>
                   ufrag !in old(hub.byUfrag)
                   || forall x :: x in hub.byAddr && hub.byAddr[x] == old(hub.byUfrag)[ufrag]
                                  ==> hub.byAddr[x].address == Some(x))
    {
      var ep := hub.Unregister(ufrag);
      if ep.Some? {
        removing := removing + {Unread(ep.value)};
      }
    }

    method ReadAddress(ep: Endpoint)
      requires Sound() && Unread(ep) in removing
      modifies this`removing
      ensures Sound()
      ensures removing == old(removing) - {Unread(ep)}
                          + if ep.address.Some? then {Read(ep, ep.address.value)} else {}
      ensures old(NothingStays()) ==> NothingStays()
    {
      var addr := ep.GetAddress();
      removing := removing - {Unread(ep)};
      if addr.Some? {
        removing := removing + {Read(ep, addr.value)};
      }
    }

    /** It drops its own entry only, and none of a live endpoint, whatever ran since the address was read. */
    method Unindex(r: Removal)
      requires Sound() && r in removing && r.Read?
      modifies this`removing, hub`byAddr
      ensures Sound() && removing == old(removing) - {r} && hub.byAddr == old(hub.byAddr) - {r.addr}
      ensures r.addr in old(hub.byAddr) ==> old(hub.byAddr)[r.addr] == r.ep
      ensures forall x :: x in old(hub.byAddr) && hub.Live(old(hub.byAddr)[x]) ==>
                x in hub.byAddr && hub.byAddr[x] == old(hub.byAddr)[x]
      ensures old(NothingStays()) ==> NothingStays()
    {
      hub.Unindex(r.addr);
      removing := removing - {r};
    }

    /** A join registers a new endpoint without an address. */
    method Admit(ufrag: Ufrag, icePwd: string, userId: UserId, channelId: ChannelId) returns (ep: Endpoint)
      requires Sound()
      modifies hub`byUfrag, this`endpoints
      ensures Sound() && endpoints == old(endpoints) + {ep}
      ensures fresh(ep) && ep.ufrag == ufrag && ep.address == None && hub.byUfrag == old(hub.byUfrag)[ufrag := ep]
    {
      hide MediaPeerHub.NoStale, MediaPeerHub.Tight, MediaPeerHub.Valid;
      ep := hub.Insert(ufrag, icePwd, userId, channelId);
      endpoints := endpoints + {ep};
    }

    /** An entry will stay exactly when an address looks up the replaced endpoint. */
    method Join(ufrag: Ufrag, icePwd: string, userId: UserId, channelId: ChannelId) returns (ep: Endpoint)
      requires Sound()
      modifies hub`byUfrag, this`endpoints
      ensures Sound() && endpoints == old(endpoints) + {ep}
      ensures fresh(ep) && ep.address == None && hub.byUfrag == old(hub.byUfrag)[ufrag := ep]
      ensures old(NothingStays()) ==>
                (NothingStays() <==>
                   ufrag !in old(hub.byUfrag)
                   || forall x :: x in hub.byAddr ==> hub.byAddr[x] != old(hub.byUfrag)[ufrag])
    {
      assert hub.Keyed() && forall r :: r in removing ==> !hub.Live(r.ep);
      hide Sound;
      ep := Admit(ufrag, icePwd, userId, channelId);
      assert forall e :: e in old(endpoints) ==>
        (hub.Live(e) <==> old(hub.Live(e)) && (ufrag in old(hub.byUfrag) ==> e != old(hub.byUfrag)[ufrag]));
    }
  }

  /**
   * A third way to an entry that stays, with neither a move nor a second join: the endpoint is removed between the
   * sections of its first latch.
   */
  method RemovedDuringLatch(index: Sections, a: Addr)
    requires index.Sound() && index.latch.None? && a !in index.hub.byAddr
    modifies index, index.hub`byUfrag, index.hub`byAddr
    ensures index.Sound() && a in index.hub.byAddr
    ensures !index.hub.Live(index.hub.byAddr[a]) && !index.WillGo(a)
  {
    hide Sections.NothingStays, Sections.Indexed, Sections.Owned;
    var ep := index.Join([7], "pwd", "user", "channel");
    var known := index.LookUp(a);
    var found := index.Find([7]);
    index.Unregister([7]);
    index.ReadAddress(ep);
    index.SetAddress();
    index.Index();
  }
}
