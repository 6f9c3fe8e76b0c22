/**
 * Delivery of packets: `UserHub` (src/core/user.rs) and `dispatch_packets` (src/protocol/floor.rs).
 *
 * Every floor packet names its channel. `Hub` is what one channel sees: the registered users with their floor
 * priorities and, per user, every packet of that channel that the user's session was sent, in order. `UserHub`
 * holds the inboxes of all channels.
 */
module Delivery {
  import opened Basics
  import opened FloorMachine

  datatype Hub = Hub(registered: map<UserId, byte>, inbox: map<UserId, seq<Packet>>) {
    function Inbox(user: UserId): seq<Packet> {
      if user in inbox then inbox[user] else []
    }

    /** `tx.send` on the sessions of `users`. */
    function Sent(users: set<UserId>, packet: Packet): Hub {
      this.(inbox := map u | u in inbox.Keys + users :: if u in users then Inbox(u) + [packet] else Inbox(u))
    }
  }

  /** The packet reaches `user`. */
  predicate Reaches(o: Outgoing, hub: Hub, members: set<UserId>, user: UserId) {
    match o
    case ToSession(u, _) => user == u
    case ToUser(u, _) => user == u && user in hub.registered
    case ToMembers(exclude, _) => user in members && user in hub.registered && exclude != Some(user)
  }

  function Recipients(o: Outgoing, hub: Hub, members: set<UserId>): set<UserId> {
    match o
    case ToSession(u, _) => {u}
    case ToUser(u, _) => if u in hub.registered then {u} else {}
    case ToMembers(exclude, _) => set u | u in members && u in hub.registered && exclude != Some(u)
  }

  function Dispatch(hub: Hub, members: set<UserId>, outs: seq<Outgoing>): Hub
    decreases |outs|
  {
    if outs == [] then hub
    else Dispatch(hub.Sent(Recipients(outs[0], hub, members), outs[0].packet), members, outs[1..])
  }

  /** What of `outs` reaches `user`, in order. */
  function Received(outs: seq<Outgoing>, hub: Hub, members: set<UserId>, user: UserId): seq<Packet> {
    if outs == [] then []
    else (if Reaches(outs[0], hub, members, user) then [outs[0].packet] else [])
         + Received(outs[1..], hub, members, user)
  }

  lemma {:induction false} ReceivedDependsOnRegistered(outs: seq<Outgoing>, a: Hub, b: Hub, members: set<UserId>,
                                                       user: UserId)
    requires a.registered == b.registered
    ensures Received(outs, a, members, user) == Received(outs, b, members, user)
  {
    if outs != [] {
      ReceivedDependsOnRegistered(outs[1..], a, b, members, user);
    }
  }

  lemma SentInbox(hub: Hub, users: set<UserId>, packet: Packet, user: UserId)
    ensures hub.Sent(users, packet).registered == hub.registered
    ensures hub.Sent(users, packet).Inbox(user) == if user in users then hub.Inbox(user) + [packet] else hub.Inbox(user)
  {
  }

  /** Dispatching appends to every inbox exactly the packets that reach its user, in order. */
  lemma {:induction false} DispatchAppends(hub: Hub, members: set<UserId>, outs: seq<Outgoing>, user: UserId)
    ensures Dispatch(hub, members, outs).registered == hub.registered
    ensures Dispatch(hub, members, outs).Inbox(user) == hub.Inbox(user) + Received(outs, hub, members, user)
    decreases |outs|
  {
    hide Hub.Inbox, Hub.Sent;
    if outs != [] {
      var users := Recipients(outs[0], hub, members);
      var next := hub.Sent(users, outs[0].packet);
      SentInbox(hub, users, outs[0].packet, user);
      DispatchAppends(next, members, outs[1..], user);
      ReceivedDependsOnRegistered(outs[1..], next, hub, members, user);
      assert user in users <==> Reaches(outs[0], hub, members, user);
    }
  }

  lemma SentMore(hub: Hub, users: set<UserId>, user: UserId, packet: Packet)
    requires user !in users
    ensures hub.Sent(users, packet).Sent({user}, packet) == hub.Sent(users + {user}, packet)
  {
    assert hub.Sent(users, packet).Sent({user}, packet).inbox == hub.Sent(users + {user}, packet).inbox;
  }

  // ------------------------------------------------------------------------
  // The routing table with its fields
  // ------------------------------------------------------------------------

  class UserHub {
    var registered: map<UserId, byte>
    var inboxes: map<ChannelId, map<UserId, seq<Packet>>>

    /** What channel `id` sees. */
    function Value(id: ChannelId): Hub
      reads this
    {
      Hub(registered, if id in inboxes then inboxes[id] else map[])
    }

    constructor ()
      ensures forall id :: Value(id) == Hub(map[], map[])
    {
      registered, inboxes := map[], map[];
    }

    method Register(user: UserId, priority: byte)
      modifies this
      ensures registered == old(registered)[user := priority] && inboxes == old(inboxes)
    {
      registered := registered[user := priority];
    }

    method Unregister(user: UserId)
      modifies this
      ensures registered == old(registered) - {user} && inboxes == old(inboxes)
    {
      registered := registered - {user};
    }

    /** `tx.send` of a packet of channel `id` to one session. */
    method Send(id: ChannelId, user: UserId, packet: Packet)
      modifies this
      ensures Value(id) == old(Value(id)).Sent({user}, packet)
      ensures forall other :: other != id ==> Value(other) == old(Value(other))
    {
      var inbox := if id in inboxes then inboxes[id] else map[];
      var before := if user in inbox then inbox[user] else [];
      inboxes := inboxes[id := inbox[user := before + [packet]]];
    }

    /** Sends to each registered user of `users` but `exclude`, in any order. */
    method BroadcastTo(id: ChannelId, users: set<UserId>, packet: Packet, exclude: Option<UserId>)
      modifies this
      ensures Value(id) == old(Value(id)).Sent(Recipients(ToMembers(exclude, packet), old(Value(id)), users), packet)
      ensures forall other :: other != id ==> Value(other) == old(Value(other))
    {
      var rest := users;
      ghost var hub, sent: set<UserId> := Value(id), {};
      assert hub.Sent({}, packet) == hub;
      while rest != {}
        invariant rest <= users && registered == hub.registered
        invariant sent == set u | u in users - rest && u in hub.registered && exclude != Some(u)
        invariant Value(id) == hub.Sent(sent, packet)
        invariant forall other :: other != id ==> Value(other) == old(Value(other))
        decreases rest
      {
        var user :| user in rest;
        rest := rest - {user};
        if exclude != Some(user) && user in registered {
          SentMore(hub, sent, user, packet);
          Send(id, user, packet);
          sent := sent + {user};
        }
      }
      assert sent == Recipients(ToMembers(exclude, packet), hub, users);
    }

    /** Sends what a handler of channel `id` produced under the lock. */
    method DispatchPackets(id: ChannelId, outs: seq<Outgoing>, members: set<UserId>)
      modifies this
      ensures Value(id) == Dispatch(old(Value(id)), members, outs)
      ensures forall other :: other != id ==> Value(other) == old(Value(other))
      ensures registered == old(registered)
    {
      hide Hub.Sent;
      for i := 0 to |outs|
        invariant Dispatch(Value(id), members, outs[i..]) == Dispatch(old(Value(id)), members, outs)
        invariant forall other :: other != id ==> Value(other) == old(Value(other))
        invariant registered == old(registered)
      {
        DispatchOne(id, outs[i], members);
        assert outs[i..][1..] == outs[i + 1..];
      }
    }

    method DispatchOne(id: ChannelId, o: Outgoing, members: set<UserId>)
      modifies this
      ensures Value(id) == old(Value(id)).Sent(Recipients(o, old(Value(id)), members), o.packet)
      ensures forall other :: other != id ==> Value(other) == old(Value(other))
      ensures registered == old(registered)
    {
      ghost var before := Value(id);
      match o {
        case ToSession(user, packet) =>
          Send(id, user, packet);
        case ToUser(user, packet) =>
          if user in registered {
            Send(id, user, packet);
          } else {
            assert before.Sent({}, packet) == before;
          }
        case ToMembers(exclude, packet) =>
          BroadcastTo(id, members, packet, exclude);
      }
      assert registered == Value(id).registered;
    }
  }
}
