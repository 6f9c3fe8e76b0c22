/**
 * The UDP loop's hand-over of DTLS packets: `handle_stun` and `handle_dtls` of src/media/net.rs with the
 * session map of src/media/dtls.rs. Wherever a handler waits, endpoints and sessions may come and go.
 *
 * `arrived` and `appended` are the histories, per address, of the DTLS packets received and of those put
 * into a session's queue.
 */
module UdpLoop {
  import opened Basics
  import opened MediaPeers
  import opened AddressIndex
  import opened Stun

  type Packet = seq<byte>

  /** Room in the channel of a session that nobody reads yet. */
  const SESSION_CAPACITY: nat := 128

  /** The sending half of a session's channel: open as long as the handshake task holds the other half. */
  datatype Session = Session(open: bool)

  function At(m: map<Addr, seq<Packet>>, a: Addr): seq<Packet> {
    if a in m then m[a] else []
  }

  function Appended(m: map<Addr, seq<Packet>>, a: Addr, packets: seq<Packet>): map<Addr, seq<Packet>> {
    m[a := At(m, a) + packets]
  }

  lemma AppendedTwice(m: map<Addr, seq<Packet>>, a: Addr, x: seq<Packet>, y: seq<Packet>)
    ensures Appended(Appended(m, a, x), a, y) == Appended(m, a, x + y)
  {
    assert At(m, a) + x + y == At(m, a) + (x + y);
  }

  /**
   * A latched address has no pending packets, pending packets mean that there is no live session, and
   * every packet that arrived was appended once, in the order of arrival, or is still pending.
   */
  ghost predicate HandOver(latched: set<Addr>, live: set<Addr>, pending: map<Addr, seq<Packet>>,
                           arrived: map<Addr, seq<Packet>>, appended: map<Addr, seq<Packet>>) {
    && (forall a :: At(pending, a) != [] ==> a !in latched && a !in live)
    && (forall a :: At(arrived, a) == At(appended, a) + At(pending, a))
  }

  lemma NothingPending(latched: set<Addr>, live: set<Addr>, pending: map<Addr, seq<Packet>>,
                       arrived: map<Addr, seq<Packet>>, appended: map<Addr, seq<Packet>>, a: Addr)
    requires HandOver(latched, live, pending, arrived, appended) && (a in latched || a in live)
    ensures At(pending, a) == []
  {
  }

  /** A packet appended on arrival: its address has nothing pending. */
  lemma AppendedOnArrival(latched: set<Addr>, live: set<Addr>, pending: map<Addr, seq<Packet>>,
                          arrived: map<Addr, seq<Packet>>, appended: map<Addr, seq<Packet>>, a: Addr, packet: Packet)
    requires HandOver(latched, live, pending, arrived, appended) && At(pending, a) == []
    ensures HandOver(latched, live + {a}, pending, Appended(arrived, a, [packet]), Appended(appended, a, [packet]))
  {
    assert forall b :: b != a ==> At(Appended(arrived, a, [packet]), b) == At(arrived, b)
                                  && At(Appended(appended, a, [packet]), b) == At(appended, b);
    assert At(appended, a) + [packet] == (At(appended, a) + [packet]) + [];
    assert At(appended, a) + [] == At(appended, a);
  }

  lemma HeldBack(latched: set<Addr>, live: set<Addr>, pending: map<Addr, seq<Packet>>,
                 arrived: map<Addr, seq<Packet>>, appended: map<Addr, seq<Packet>>, a: Addr, packet: Packet)
    requires HandOver(latched, live, pending, arrived, appended) && a !in latched && a !in live
    ensures HandOver(latched, live, Appended(pending, a, [packet]), Appended(arrived, a, [packet]), appended)
  {
    assert forall b :: b != a ==> At(Appended(arrived, a, [packet]), b) == At(arrived, b)
                                  && At(Appended(pending, a, [packet]), b) == At(pending, b);
    assert At(appended, a) + At(pending, a) + [packet] == At(appended, a) + (At(pending, a) + [packet]);
  }

  /** A latch with all pending packets of the address appended. */
  lemma HandedOver(latched: set<Addr>, live: set<Addr>, pending: map<Addr, seq<Packet>>,
                   arrived: map<Addr, seq<Packet>>, appended: map<Addr, seq<Packet>>, a: Addr)
    requires HandOver(latched, live, pending, arrived, appended)
    ensures HandOver(latched + {a}, live + {a}, pending - {a}, arrived, Appended(appended, a, At(pending, a)))
  {
    var appended' := Appended(appended, a, At(pending, a));
    assert forall b :: b != a ==> At(appended', b) == At(appended, b) && At(pending - {a}, b) == At(pending, b);
    assert At(pending - {a}, a) == [] && At(appended', a) + [] == At(appended', a);
  }

  lemma PendingIsNotLive(latched: set<Addr>, live: set<Addr>, pending: map<Addr, seq<Packet>>,
                         arrived: map<Addr, seq<Packet>>, appended: map<Addr, seq<Packet>>, a: Addr)
    requires HandOver(latched, live, pending, arrived, appended)
    ensures At(pending, a) != [] ==> a !in live
    ensures At(pending, a) == [] ==> HandOver(latched + {a}, live, pending - {a}, arrived, appended)
  {
    assert forall b :: At(pending - {a}, b) == if b == a then [] else At(pending, b);
  }

  lemma FewerPeers(latched: set<Addr>, live: set<Addr>, pending: map<Addr, seq<Packet>>,
                   arrived: map<Addr, seq<Packet>>, appended: map<Addr, seq<Packet>>,
                   latched': set<Addr>, live': set<Addr>)
    requires HandOver(latched, live, pending, arrived, appended) && latched' <= latched && live' <= live
    ensures HandOver(latched', live', pending, arrived, appended)
  {
  }

  /** What other tasks do to endpoints and sessions, one critical section each. */
  datatype Other =
    | Closes(addr: Addr)
    | Stales(addr: Addr)
    | Joins(ufrag: Ufrag, icePwd: string, user: UserId, channel: ChannelId)
    | Unregisters(ufrag: Ufrag)
    | Reads(removal: Removal)
    | Unindexes(removal: Removal)

  /** What other tasks do between the sections of `HandleStun`. */
  datatype Pauses = Pauses(finding: seq<Other>, moving: seq<Other>, indexing: seq<Other>, answering: seq<Other>,
                           draining: seq<Other>, injecting: seq<Other>)

  /** Entries were dropped and nothing else, each by the removal of its own endpoint. */
  ghost predicate OnlyDrops(before: map<Addr, Endpoint>, after: map<Addr, Endpoint>, others: seq<Other>) {
    && (forall x :: x in after ==> x in before && after[x] == before[x])
    && (forall x :: x in before && x !in after ==> Unindexes(Read(before[x], x)) in others)
  }

  lemma DropsMore(m: map<Addr, Endpoint>, n: map<Addr, Endpoint>, o: map<Addr, Endpoint>, others: seq<Other>,
                  more: seq<Other>)
    requires OnlyDrops(m, n, others) && OnlyDrops(n, o, more)
    ensures OnlyDrops(m, o, others + more)
  {
  }

  /** After the latch of `a` its address looks the endpoint up unless one of `others` removed that endpoint. */
  ghost predicate Latches(byAddr: map<Addr, Endpoint>, a: Addr, ep: Endpoint, others: seq<Other>)
    reads ep`address
  {
    && ep.address == Some(a)
    && (a in byAddr ==> byAddr[a] == ep)
    && (a !in byAddr ==> Unindexes(Read(ep, a)) in others)
  }

  lemma SameEntries(m: map<Addr, Endpoint>, n: map<Addr, Endpoint>, others: seq<Other>)
    requires OnlyDrops(m, n, others)
    ensures others == [] ==> n == m
  {
  }

  lemma LatchesLater(m: map<Addr, Endpoint>, n: map<Addr, Endpoint>, a: Addr, ep: Endpoint, others: seq<Other>,
                     more: seq<Other>)
    requires Latches(m, a, ep, others) && OnlyDrops(m, n, more)
    ensures Latches(n, a, ep, others + more)
  {
  }

  class Loop {
    const index: Sections
    var sessions: map<Addr, Session>
    var pending: map<Addr, seq<Packet>>
    /** A hand-over that filled its channel: the loop waits for a reader that is not started yet. */
    var stuck: bool
    ghost var arrived: map<Addr, seq<Packet>>
    ghost var appended: map<Addr, seq<Packet>>

    /** Addresses with an open session. */
    ghost function Live(): set<Addr>
      reads this`sessions
    {
      set a | a in sessions && sessions[a].open
    }

    ghost function Latched(): set<Addr>
      reads index.hub`byAddr
    {
      index.hub.byAddr.Keys
    }

    ghost predicate Valid()
      reads this, index, index.hub`byUfrag, index.hub`byAddr, index.endpoints
    {
      index.Sound() && index.latch.None? && !stuck && HandOver(Latched(), Live(), pending, arrived, appended)
    }

    constructor (index: Sections)
      requires index.Sound() && index.latch.None?
      ensures Valid() && this.index == index && fresh(this)
      ensures sessions == map[] && pending == map[] && arrived == map[] && appended == map[]
    {
      this.index := index;
      sessions, pending, stuck := map[], map[], false;
      arrived, appended := map[], map[];
    }

    // ------------------------------------------------------------------------
    // DtlsSessionMap
    // ------------------------------------------------------------------------

    method Inject(a: Addr, packet: Packet) returns (ok: bool)
      modifies this`appended
      ensures ok == (a in Live())
      ensures appended == if ok then Appended(old(appended), a, [packet]) else old(appended)
    {
      ok := a in sessions && sessions[a].open;
      if ok {
        appended := Appended(appended, a, [packet]);
      }
    }

    method EnqueuePending(a: Addr, packet: Packet)
      modifies this`pending
      ensures pending == Appended(old(pending), a, [packet])
    {
      pending := pending[a := (if a in pending then pending[a] else []) + [packet]];
    }

    method DrainPending(a: Addr) returns (packets: seq<Packet>)
      modifies this`pending
      ensures packets == At(old(pending), a) && pending == old(pending) - {a}
    {
      packets := if a in pending then pending[a] else [];
      pending := pending - {a};
    }

    /** Registers a session and fills its channel; only afterwards is the task that reads the channel started. */
    method StartDtlsHandshake(a: Addr, packets: seq<Packet>)
      modifies this`sessions, this`appended, this`stuck
      ensures sessions == old(sessions)[a := Session(true)]
      ensures stuck == (|packets| > SESSION_CAPACITY)
      ensures appended == if packets == [] then old(appended)
                          else Appended(old(appended), a, if stuck then packets[..SESSION_CAPACITY] else packets)
    {
      sessions := sessions[a := Session(true)];
      var sent := 0;
      while sent < |packets| && sent < SESSION_CAPACITY
        invariant 0 <= sent <= |packets| && sent <= SESSION_CAPACITY
        invariant appended == if sent == 0 then old(appended) else Appended(old(appended), a, packets[..sent])
        modifies this`appended
      {
        assert packets[..sent + 1] == packets[..sent] + [packets[sent]];
        assert sent == 0 ==> packets[..sent + 1] == [packets[sent]];
        AppendedTwice(old(appended), a, packets[..sent], [packets[sent]]);
        appended := Appended(appended, a, [packets[sent]]);
        sent := sent + 1;
      }
      stuck := sent < |packets|;
      assert packets[..|packets|] == packets;
    }

    // ------------------------------------------------------------------------
    // What may happen between any two critical sections of a handler
    // ------------------------------------------------------------------------

    /** The handshake task of a session ends and drops its half of the channel. */
    method SessionCloses(a: Addr)
      modifies this`sessions
      ensures old(Valid()) ==> Valid()
      ensures Live() <= old(Live())
    {
      ghost var live := Live();
      if a in sessions {
        sessions := sessions[a := Session(false)];
      }
      assert Live() <= live;
      Fewer(Latched(), live);
    }

    /** The task that ended, or the reaper, removes the entry at an address, whichever session it holds by then. */
    method SessionRemoved(a: Addr)
      modifies this`sessions
      ensures old(Valid()) ==> Valid()
      ensures Live() <= old(Live())
    {
      ghost var live := Live();
      sessions := sessions - {a};
      assert Live() <= live;
      Fewer(Latched(), live);
    }

    method EndpointJoins(ufrag: Ufrag, icePwd: string, userId: UserId, channelId: ChannelId) returns (ep: Endpoint)
      requires index.Sound()
      modifies index.hub`byUfrag, index`endpoints
      ensures index.Sound() && (old(Valid()) ==> Valid()) && ufrag in index.hub.byUfrag
      ensures fresh(ep) && index.endpoints == old(index.endpoints) + {ep}
    {
      ep := index.Join(ufrag, icePwd, userId, channelId);
    }

    /** A section of a removal: one starts, reads the address, or drops an entry and ends. */
    method RemovalSection(e: Other)
      requires index.Sound()
      modifies index`removing, index.hub`byAddr, index.hub`byUfrag
      ensures index.Sound() && (old(Valid()) ==> Valid())
      ensures Latched() <= old(Latched()) && OnlyDrops(old(index.hub.byAddr), index.hub.byAddr, [e])
      ensures forall x :: x in old(index.hub.byAddr) && index.hub.Live(old(index.hub.byAddr)[x]) ==>
                x in index.hub.byAddr && index.hub.byAddr[x] == old(index.hub.byAddr)[x]
    {
      ghost var latched := Latched();
      match e {
        case Unregisters(ufrag) =>
          index.Unregister(ufrag);
        case Reads(r) =>
          if r in index.removing && r.Unread? {
            index.ReadAddress(r.ep);
          }
        case Unindexes(r) =>
          if r in index.removing && r.Read? {
            index.Unindex(r);
          }
        case _ =>
      }
      Fewer(latched, Live());
    }

    /** Dropping addresses and sessions keeps the hand-over. */
    lemma Fewer(latched: set<Addr>, live: set<Addr>)
      requires Latched() <= latched && Live() <= live
      ensures HandOver(latched, live, pending, arrived, appended)
              ==> HandOver(Latched(), Live(), pending, arrived, appended)
    {
      if HandOver(latched, live, pending, arrived, appended) {
        FewerPeers(latched, live, pending, arrived, appended, Latched(), Live());
      }
    }

    /** Other tasks run between two sections of a handler. */
    method Meanwhile(others: seq<Other>)
      requires index.Sound()
      modifies this`sessions, index`removing, index`endpoints, index.hub`byAddr, index.hub`byUfrag
      ensures index.Sound() && (old(Valid()) ==> Valid())
      ensures Latched() <= old(Latched()) && Live() <= old(Live())
      ensures OnlyDrops(old(index.hub.byAddr), index.hub.byAddr, others)
      ensures forall e :: e in index.endpoints ==> e in old(index.endpoints) || fresh(e)
      ensures others == [] ==>
                && index.hub.byAddr == old(index.hub.byAddr) && index.hub.byUfrag == old(index.hub.byUfrag)
                && sessions == old(sessions) && index.endpoints == old(index.endpoints)
    {
      hide HandOver, Sections.Sound;
      for i := 0 to |others|
        invariant index.Sound() && (old(Valid()) ==> Valid())
        invariant Latched() <= old(Latched()) && Live() <= old(Live())
        invariant OnlyDrops(old(index.hub.byAddr), index.hub.byAddr, others[..i])
        invariant forall e :: e in index.endpoints ==> e in old(index.endpoints) || fresh(e)
        invariant i == 0 ==>
                    && index.hub.byAddr == old(index.hub.byAddr) && index.hub.byUfrag == old(index.hub.byUfrag)
                    && sessions == old(sessions) && index.endpoints == old(index.endpoints)
      {
        ghost var before, dropped := index.hub.byAddr, others[..i];
        assert others[..i + 1] == dropped + [others[i]];
        match others[i] {
          case Closes(a) => SessionCloses(a);
          case Stales(a) => SessionRemoved(a);
          case Joins(ufrag, icePwd, user, channel) =>
            var ep := EndpointJoins(ufrag, icePwd, user, channel);
          case _ => RemovalSection(others[i]);
        }
        DropsMore(old(index.hub.byAddr), before, index.hub.byAddr, dropped, [others[i]]);
      }
      assert others[..|others|] == others;
    }

    // ------------------------------------------------------------------------
    // Handlers
    // ------------------------------------------------------------------------

    /**
     * Never gets stuck, whatever happens between its sections: an arriving packet is appended to the live session, or
     * to one that it starts for a latched address, or it is held back for the latch, and exactly one of these.
     */
    method HandleDtls(a: Addr, packet: Packet, before: seq<Other>, after: seq<Other>)
      requires Valid()
      modifies this, index`removing, index`endpoints, index.hub`byAddr, index.hub`byUfrag
      ensures Valid() && arrived == Appended(old(arrived), a, [packet])
      ensures (appended == Appended(old(appended), a, [packet]) && pending == old(pending))
              || (appended == old(appended) && pending == Appended(old(pending), a, [packet]))
      ensures a in old(Live()) || (a in old(Latched()) && before == []) ==> pending == old(pending)
      ensures a !in old(Live()) && a !in old(Latched()) ==> pending == Appended(old(pending), a, [packet])
      ensures Live() <= old(Live()) + {a} && Latched() <= old(Latched())
      ensures before == [] && after == [] && a !in old(Latched()) ==>
                && Live() == old(Live()) && index.hub.byAddr == old(index.hub.byAddr)
                && index.hub.byUfrag == old(index.hub.byUfrag) && index.endpoints == old(index.endpoints)
    {
      hide HandOver, Sections.Sound;
      if a in Live() {
        NothingPending(Latched(), Live(), pending, arrived, appended, a);
        AppendedOnArrival(Latched(), Live(), pending, arrived, appended, a, packet);
        assert Live() + {a} == Live();
      }
      var injected := Inject(a, packet);
      if injected {
        arrived := Appended(arrived, a, [packet]);
        return;
      }
      Meanwhile(before);
      var endpoint := index.hub.GetByAddr(a);
      if endpoint.Some? {
        NothingPending(Latched(), Live(), pending, arrived, appended, a);
      }
      Meanwhile(after);
      if endpoint.None? {
        Hold(a, packet);
      } else {
        Start(a, packet);
      }
    }

    /** The packet waits for the latch of its address. */
    method Hold(a: Addr, packet: Packet)
      requires Valid() && a !in Latched() && a !in Live()
      modifies this`pending, this`arrived
      ensures Valid() && arrived == Appended(old(arrived), a, [packet])
      ensures pending == Appended(old(pending), a, [packet])
    {
      hide HandOver, Sections.Sound;
      HeldBack(Latched(), Live(), pending, arrived, appended, a, packet);
      EnqueuePending(a, packet);
      arrived := Appended(arrived, a, [packet]);
    }

    /** The packet starts a session. */
    method Start(a: Addr, packet: Packet)
      requires Valid() && At(pending, a) == []
      modifies this`sessions, this`appended, this`stuck, this`arrived
      ensures Valid() && arrived == Appended(old(arrived), a, [packet])
      ensures appended == Appended(old(appended), a, [packet]) && Live() == old(Live()) + {a}
    {
      hide HandOver, Sections.Sound;
      ghost var live := Live();
      AppendedOnArrival(Latched(), live, pending, arrived, appended, a, packet);
      StartDtlsHandshake(a, [packet]);
      arrived := Appended(arrived, a, [packet]);
      assert Live() == live + {a};
    }

    /**
     * A request from an indexed address is only answered. From any other it latches the endpoint it names; a latch
     * hands all pending packets to a new session, whatever happens between its sections, and completes exactly when
     * they fit the session's channel.
     */
    method HandleStun(a: Addr, packet: Packet, p: Pauses) returns (answered: Option<Endpoint>)
      requires Valid()
      modifies this, index, index.hub`byAddr, index.hub`byUfrag, index.endpoints
      ensures index.Sound() && index.latch.None? && arrived == old(arrived)
      ensures forall e :: e in index.endpoints ==> e in old(index.endpoints) || fresh(e)
      ensures a in old(Latched()) ==>
                && Valid() && answered == Some(old(index.hub.byAddr)[a]) && index.hub.byAddr == old(index.hub.byAddr)
                && sessions == old(sessions) && pending == old(pending)
      ensures a !in old(Latched()) && answered.None? ==>
                && Valid() && pending == old(pending) && Latched() <= old(Latched()) && Live() <= old(Live())
                && (p.finding == [] ==> index.hub.byAddr == old(index.hub.byAddr) && sessions == old(sessions))
      ensures a !in old(Latched()) && answered.Some? ==>
                && pending == old(pending) - {a}
                && (stuck <==> |old(At(pending, a))| > SESSION_CAPACITY) && (Valid() <==> !stuck)
                && Latched() <= old(Latched()) + {a} && Live() <= old(Live()) + {a}
                && (old(At(pending, a)) != [] ==> a in Live())
      ensures a !in old(Latched()) && answered.Some? ==>
                && |packet| >= 20 && UsernameFrom(packet, 20) == Some(answered.value.ufrag)
                && Latches(index.hub.byAddr, a, answered.value, p.answering + p.draining + p.injecting)
      ensures a !in old(Latched()) && p.finding == [] ==>
                answered == if |packet| >= 20 && UsernameFrom(packet, 20).Some?
                               && UsernameFrom(packet, 20).value in old(index.hub.byUfrag)
                            then Some(old(index.hub.byUfrag)[UsernameFrom(packet, 20).value]) else None
      ensures a !in old(Latched()) && answered.Some? && p == NO_PAUSES ==>
                index.hub.byAddr == old(index.hub.byAddr)[a := answered.value]
    {
      hide HandOver, Sections.Sound, Sections.NothingStays, UsernameFrom, Latches, OnlyDrops;
      ghost var latched, live := Latched(), Live();
      var known := index.LookUp(a);
      if known.Some? {
        return known;
      }
      var ufrag := ParseStunUsername(packet);
      if ufrag.None? {
        index.Abandon();
        return None;
      }
      answered := Latch(a, ufrag.value, p);
      FewerPeers(latched, live, pending, arrived, appended, Latched() - {a}, Live());
      if answered.None? {
        assert Latched() - {a} == Latched();
        return None;
      }
      ghost var indexed := index.hub.byAddr;
      HandOverPending(a, p.draining, p.injecting);
      LatchesLater(indexed, index.hub.byAddr, a, answered.value, p.answering, p.draining + p.injecting);
      assert p.answering + (p.draining + p.injecting) == p.answering + p.draining + p.injecting;
      SameEntries(indexed, index.hub.byAddr, p.draining + p.injecting);
    }

    /** The sections of a latch, and the answer. */
    method Latch(a: Addr, ufrag: Ufrag, p: Pauses) returns (ep: Option<Endpoint>)
      requires index.Sound() && index.latch == Some(Claimed(a))
      modifies this`sessions, index, index.hub`byAddr, index.hub`byUfrag, index.endpoints
      ensures index.Sound() && index.latch.None?
      ensures Latched() <= old(Latched()) + (if ep.Some? then {a} else {}) && Live() <= old(Live())
      ensures ep.None? && p.finding == [] ==> index.hub.byAddr == old(index.hub.byAddr) && sessions == old(sessions)
      ensures p.finding == [] ==>
                ep == if ufrag in old(index.hub.byUfrag) then Some(old(index.hub.byUfrag)[ufrag]) else None
      ensures forall e :: e in index.endpoints ==> e in old(index.endpoints) || fresh(e)
      ensures ep.Some? ==> ep.value.ufrag == ufrag && Latches(index.hub.byAddr, a, ep.value, p.answering)
      ensures ep.Some? && p.finding == p.moving == p.indexing == p.answering == [] ==>
                index.hub.byAddr == old(index.hub.byAddr)[a := ep.value] && sessions == old(sessions)
    {
      hide HandOver, Sections.Sound;
      Meanwhile(p.finding);
      ep := index.Find(ufrag);
      if ep.Some? {
        Settle(a, ep.value, p);
      }
    }

    /** The sections of a latch that has found its endpoint. */
    method Settle(a: Addr, ep: Endpoint, p: Pauses)
      requires index.Sound() && index.latch == Some(Latching.Found(a, ep))
      modifies this`sessions, index, index.hub`byAddr, index.hub`byUfrag, ep`address
      ensures index.Sound() && index.latch.None?
      ensures Latched() <= old(Latched()) + {a} && Live() <= old(Live())
      ensures Latches(index.hub.byAddr, a, ep, p.answering)
      ensures forall e :: e in index.endpoints ==> e in old(index.endpoints) || fresh(e)
      ensures p.moving == p.indexing == p.answering == [] ==>
                index.hub.byAddr == old(index.hub.byAddr)[a := ep] && sessions == old(sessions)
    {
      hide HandOver, Sections.Sound, Sections.NothingStays;
      Meanwhile(p.moving);
      index.SetAddress();
      Meanwhile(p.indexing);
      index.Index();
      Meanwhile(p.answering);
    }

    /** After the latch of `a`: what was pending for it goes to a new session. */
    method HandOverPending(a: Addr, draining: seq<Other>, injecting: seq<Other>)
      requires index.Sound() && index.latch.None? && !stuck
      requires HandOver(Latched() - {a}, Live(), pending, arrived, appended)
      modifies this`sessions, this`pending, this`stuck, this`appended
      modifies index`removing, index`endpoints, index.hub`byAddr, index.hub`byUfrag
      ensures index.Sound() && pending == old(pending) - {a}
      ensures Latched() <= old(Latched()) && Live() <= old(Live()) + {a}
      ensures old(At(pending, a)) != [] ==> a in Live()
      ensures (stuck <==> |old(At(pending, a))| > SESSION_CAPACITY) && (Valid() <==> !stuck)
      ensures forall e :: e in index.endpoints ==> e in old(index.endpoints) || fresh(e)
      ensures OnlyDrops(old(index.hub.byAddr), index.hub.byAddr, draining + injecting)
    {
      hide HandOver, Sections.Sound;
      ghost var latched, live := Latched() - {a}, Live();
      PendingIsNotLive(latched, live, pending, arrived, appended, a);
      HandedOver(latched, live, pending, arrived, appended, a);
      var packets := DrainPending(a);
      Meanwhile(draining);
      if packets == [] {
        FewerPeers(latched + {a}, live, pending, arrived, appended, Latched(), Live());
        return;
      }
      FewerPeers(latched + {a}, live + {a}, pending, arrived, Appended(appended, a, packets), Latched(), Live() + {a});
      StartDrained(a, packets, injecting);
    }

    method StartDrained(a: Addr, packets: seq<Packet>, injecting: seq<Other>)
      requires index.Sound() && index.latch.None? && !stuck && packets != [] && a !in Live()
      requires HandOver(Latched(), Live() + {a}, pending, arrived, Appended(appended, a, packets))
      modifies this`sessions, this`stuck, this`appended
      modifies index`removing, index`endpoints, index.hub`byAddr, index.hub`byUfrag
      ensures index.Sound() && Latched() <= old(Latched()) && a in Live() && Live() <= old(Live()) + {a}
      ensures (stuck <==> |packets| > SESSION_CAPACITY) && (Valid() <==> !stuck)
      ensures forall e :: e in index.endpoints ==> e in old(index.endpoints) || fresh(e)
      ensures OnlyDrops(old(index.hub.byAddr), index.hub.byAddr, injecting)
    {
      hide HandOver, Sections.Sound;
      ghost var latched, live := Latched(), Live();
      var injected := Inject(a, packets[0]);
      // The branch in which the first packet is injected and the others are lost is never taken.
      assert !injected;
      Meanwhile(injecting);
      FewerPeers(latched, live + {a}, pending, arrived, Appended(appended, a, packets), Latched(), Live() + {a});
      ghost var open := Live();
      StartDtlsHandshake(a, packets);
      assert Live() == open + {a};
    }
  }

  const NO_PAUSES := Pauses([], [], [], [], [], [])

  /**
   * Once a request from an address is answered, every later one from there is answered for the same endpoint, whatever
   * it names, unless that endpoint was removed in between or the loop is stuck.
   */
  method AskAgain(loop: Loop, a: Addr, request: Packet, p: Pauses, again: Packet, q: Pauses)
    returns (first: Option<Endpoint>, second: Option<Endpoint>)
    requires loop.Valid()
    modifies loop, loop.index, loop.index.hub`byAddr, loop.index.hub`byUfrag, loop.index.endpoints
    ensures first.Some? && |old(At(loop.pending, a))| <= SESSION_CAPACITY
            && Unindexes(Read(first.value, a)) !in p.answering + p.draining + p.injecting
            ==> second == first
  {
    hide HandOver, Sections.Sound, UsernameFrom;
    first := loop.HandleStun(a, request, p);
    second := None;
    if !loop.stuck {
      second := loop.HandleStun(a, again, q);
    }
  }

  /** More packets than fit a session, from an address that latches afterwards, stop the loop. */
  method Flood(loop: Loop, a: Addr, packet: Packet, request: Packet)
    requires loop.Valid() && a !in loop.Latched() && a !in loop.Live()
    requires |request| >= 20 && UsernameFrom(request, 20).Some?
    requires UsernameFrom(request, 20).value in loop.index.hub.byUfrag
    modifies loop, loop.index, loop.index.hub`byAddr, loop.index.hub`byUfrag, loop.index.endpoints
    ensures loop.stuck
  {
    hide HandOver, Sections.Sound, UsernameFrom;
    for i := 0 to SESSION_CAPACITY + 1
      invariant loop.Valid() && a !in loop.Latched() && a !in loop.Live()
      invariant loop.index.hub.byUfrag == old(loop.index.hub.byUfrag)
      invariant loop.index.endpoints == old(loop.index.endpoints)
      invariant |At(loop.pending, a)| >= i
    {
      ghost var before := At(loop.pending, a);
      loop.HandleDtls(a, packet, [], []);
      assert At(loop.pending, a) == before + [packet];
    }
    var answered := loop.HandleStun(a, request, NO_PAUSES);
  }

  /** From a new server with one endpoint: its first request, after too many DTLS packets from its address. */
  method FloodedServer(a: Addr, packet: Packet) returns (loop: Loop)
    ensures loop.stuck
  {
    hide MediaPeerHub.Valid, Sections.Sound, HandOver;
    var hub := new MediaPeerHub();
    var index := new Sections(hub);
    loop := new Loop(index);
    var ufrag: Ufrag := [0x61, 0x62, 0x63];
    var ep := loop.EndpointJoins(ufrag, "pwd", "user", "channel");
    var header: seq<byte> := seq(20, _ => 0);
    var attrs := [Attr(USERNAME, ufrag + [COLON], [])];
    assert attrs[0].value == ufrag + [COLON] + [];
    UsernameRoundTrip(header, attrs, 0, ufrag, []);
    Flood(loop, a, packet, header + EncodeAll(attrs));
  }
}
