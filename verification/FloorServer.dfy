/**
 * The floor handlers as they run: src/protocol/floor.rs, `admin_floor_revoke` of src/http/admin.rs and the
 * membership of src/core/channel.rs. Each handler changes the floor of its channel in place under the lock
 * and then sends its packets; the contracts say that this is the step of the floor machine.
 */
module FloorServer {
  import opened Basics
  import opened FloorControls
  import opened FloorMachine
  import opened Delivery

  datatype LiveError = ChannelNotFound | ChannelFull | AlreadyInChannel

  datatype Reply = Ok | Err(error: LiveError)

  class Channel {
    const capacity: nat
    const ptt: bool
    const floor: FloorControl
    var members: set<UserId>

    constructor (capacity: nat, ptt: bool)
      ensures this.capacity == capacity && this.ptt == ptt
      ensures members == {} && fresh(floor) && floor.Value() == NEW_FLOOR
    {
      this.capacity, this.ptt := capacity, ptt;
      floor := new FloorControl();
      members := {};
    }

    /** The capacity is checked before the duplicate. */
    method AddMember(user: UserId) returns (reply: Reply)
      modifies this
      ensures reply == if |old(members)| >= capacity then Err(ChannelFull)
                       else if user in old(members) then Err(AlreadyInChannel)
                       else Ok
      ensures members == if reply.Ok? then old(members) + {user} else old(members)
      ensures old(|members|) <= capacity ==> |members| <= capacity
    {
      if |members| >= capacity {
        return Err(ChannelFull);
      }
      if user in members {
        return Err(AlreadyInChannel);
      }
      members := members + {user};
      return Ok;
    }

    method RemoveMember(user: UserId)
      modifies this
      ensures members == old(members) - {user}
    {
      members := members - {user};
    }

    /** The floor gate of the media relay. */
    method MayRelay(user: UserId) returns (granted: bool)
      ensures granted <==> (ptt ==> MaySpeak(floor.Value(), user))
    {
      granted := !ptt || (floor.phase.Taken? && floor.takenBy == Some(user));
    }
  }

  class ChannelHub {
    var channels: map<ChannelId, Channel>

    /** No two channels share their floor. */
    ghost predicate Valid()
      reads this
    {
      forall a, b :: a in channels && b in channels && a != b ==> channels[a].floor != channels[b].floor
    }

    ghost function Floors(): set<object>
      reads this
    {
      set id | id in channels :: channels[id].floor
    }

    constructor ()
      ensures Valid() && channels == map[]
    {
      channels := map[];
    }

    /** Keeps a channel that is already there. */
    method Create(id: ChannelId, capacity: nat, ptt: bool) returns (ch: Channel)
      requires Valid()
      modifies this
      ensures Valid() && channels == old(channels)[id := ch]
      ensures id in old(channels) ==> ch == old(channels)[id]
      ensures id !in old(channels) ==> fresh(ch) && ch.members == {} && ch.floor.Value() == NEW_FLOOR
                                       && ch.capacity == capacity && ch.ptt == ptt
    {
      if id in channels {
        ch := channels[id];
      } else {
        ch := new Channel(capacity, ptt);
        channels := channels[id := ch];
      }
    }

    method Remove(id: ChannelId) returns (found: bool)
      requires Valid()
      modifies this
      ensures Valid() && found == (id in old(channels)) && channels == old(channels) - {id}
    {
      found := id in channels;
      channels := channels - {id};
    }
  }

  // ------------------------------------------------------------------------
  // Handlers
  // ------------------------------------------------------------------------

  /** The next holder or a free floor; the packets are sent once the lock is released. */
  method DecideNextHolder(floor: FloorControl, now: nat) returns (outs: seq<Outgoing>)
    modifies floor
    ensures (floor.Value(), outs) == DecideNext(old(floor.Value()), now)
  {
    var next := floor.DequeueNext();
    if next.Some? {
      var e := next.value;
      floor.Grant(now, e.userId, e.priority, e.indicator);
      outs := [ToUser(e.userId, FloorGranted(e.userId, FLOOR_MAX_TAKEN_MS)),
               ToMembers(Some(e.userId), FloorTaken(e.userId, e.indicator))];
    } else {
      floor.ClearTaken();
      outs := [ToMembers(None, FloorIdle)];
    }
  }

  /** Priority of a request: as asked, else as registered, else the default. */
  function PriorityOf(asked: Option<byte>, hub: Hub, user: UserId): (priority: byte)
    ensures asked.Some? ==> asked.value == priority
    ensures asked.None? && user in hub.registered ==> hub.registered[user] == priority
    ensures asked.None? && user !in hub.registered ==> priority == FLOOR_PRIORITY_DEFAULT
  {
    asked.GetOr(if user in hub.registered then hub.registered[user] else FLOOR_PRIORITY_DEFAULT)
  }

  method HandleFloorRequest(users: UserHub, hub: ChannelHub, id: ChannelId, now: nat, user: UserId,
                            asked: Option<byte>, indicator: FloorIndicator) returns (reply: Reply)
    modifies users, if id in hub.channels then {hub.channels[id].floor} else {}
    ensures reply == if id in hub.channels then Ok else Err(ChannelNotFound)
    ensures forall other :: other != id || reply.Err? ==> users.Value(other) == old(users.Value(other))
    ensures id in hub.channels ==>
              var ch := hub.channels[id];
              var ev := Request(user, PriorityOf(asked, old(users.Value(id)), user), indicator);
              && ch.floor.Value() == Step(old(ch.floor.Value()), now, ev).0
              && users.Value(id) == Dispatch(old(users.Value(id)), ch.members, Step(old(ch.floor.Value()), now, ev).1)
  {
    var priority :=
      match asked
      case Some(p) => p
      case None => if user in users.registered then users.registered[user] else FLOOR_PRIORITY_DEFAULT;
    if id !in hub.channels {
      return Err(ChannelNotFound);
    }
    var ch := hub.channels[id];
    var floor := ch.floor;
    ghost var before := floor.Value();
    var granted := ToSession(user, FloorGranted(user, FLOOR_MAX_TAKEN_MS));
    var taken := ToMembers(Some(user), FloorTaken(user, indicator));
    var outs: seq<Outgoing>;
    if floor.phase.Idle? {
      floor.Grant(now, user, priority, indicator);
      outs := [granted, taken];
    } else if indicator.Emergency? || priority > floor.priority {
      var oldHolder := floor.takenBy.GetOr("");
      floor.Grant(now, user, priority, indicator);
      outs := [ToUser(oldHolder, FloorRevoke("preempted"))] + [granted, taken];
    } else {
      floor.Enqueue(now, user, priority, indicator);
      var position := floor.QueuePosition(user);
      outs := [ToSession(user, FloorQueuePosInfo(position.GetOr(1), |floor.queue|))];
    }
    assert (floor.Value(), outs) == Step(before, now, Request(user, priority, indicator));
    users.DispatchPackets(id, outs, ch.members);
    return Ok;
  }

  method HandleFloorRelease(users: UserHub, hub: ChannelHub, id: ChannelId, now: nat, user: UserId)
    returns (reply: Reply)
    modifies users, if id in hub.channels then {hub.channels[id].floor} else {}
    ensures reply == if id in hub.channels then Ok else Err(ChannelNotFound)
    ensures forall other :: other != id || reply.Err? ==> users.Value(other) == old(users.Value(other))
    ensures id in hub.channels ==>
              var ch := hub.channels[id];
              var (floor, outs) := Step(old(ch.floor.Value()), now, Release(user));
              ch.floor.Value() == floor && users.Value(id) == Dispatch(old(users.Value(id)), ch.members, outs)
  {
    if id !in hub.channels {
      return Err(ChannelNotFound);
    }
    var ch := hub.channels[id];
    if ch.floor.takenBy != Some(user) {
      ch.floor.RemoveFromQueue(user);
      return Ok;
    }
    var outs := DecideNextHolder(ch.floor, now);
    users.DispatchPackets(id, outs, ch.members);
    return Ok;
  }

  method HandleFloorPing(users: UserHub, hub: ChannelHub, id: ChannelId, now: nat, user: UserId)
    returns (reply: Reply)
    modifies users, if id in hub.channels then {hub.channels[id].floor} else {}
    ensures reply == if id in hub.channels then Ok else Err(ChannelNotFound)
    ensures forall other :: other != id || reply.Err? ==> users.Value(other) == old(users.Value(other))
    ensures id in hub.channels ==>
              var ch := hub.channels[id];
              var (floor, outs) := Step(old(ch.floor.Value()), now, Ping(user));
              ch.floor.Value() == floor && users.Value(id) == Dispatch(old(users.Value(id)), ch.members, outs)
  {
    if id !in hub.channels {
      return Err(ChannelNotFound);
    }
    var ch := hub.channels[id];
    if ch.floor.takenBy != Some(user) {
      return Ok;
    }
    ch.floor.OnPing(now);
    users.DispatchPackets(id, [ToSession(user, FloorPong)], ch.members);
    return Ok;
  }

  /** The check of one channel, under its lock. */
  method CheckFloor(floor: FloorControl, now: nat) returns (outs: seq<Outgoing>)
    modifies floor
    ensures (floor.Value(), outs) == Step(old(floor.Value()), now, Sweep)
  {
    if !floor.phase.Taken? {
      return [];
    }
    var exceeded := floor.takenAt.Some? && SaturatingSub(now, floor.takenAt.value) >= FLOOR_MAX_TAKEN_MS;
    var silent := SaturatingSub(now, floor.lastPingAt) >= FLOOR_PING_TIMEOUT_MS;
    if !exceeded && !silent {
      return [];
    }
    var holder := floor.takenBy.GetOr("");
    var cause := if exceeded then "max_duration" else "ping_timeout";
    outs := DecideNextHolder(floor, now);
    outs := [ToUser(holder, FloorRevoke(cause))] + outs;
  }

  /** The sweep at `now` takes a floor and what its channel sees to `g` and `after`. */
  predicate Sweeps(f: Floor, before: Hub, members: set<UserId>, now: nat, g: Floor, after: Hub) {
    var (floor, outs) := Step(f, now, Sweep);
    g == floor && after == Dispatch(before, members, outs)
  }

  /** The check of one channel and its dispatch. */
  method CheckChannel(users: UserHub, id: ChannelId, ch: Channel, now: nat)
    modifies users, ch.floor
    ensures users.registered == old(users.registered)
    ensures forall other :: other != id ==> users.Value(other) == old(users.Value(other))
    ensures Sweeps(old(ch.floor.Value()), old(users.Value(id)), ch.members, now, ch.floor.Value(), users.Value(id))
  {
    var outs := CheckFloor(ch.floor, now);
    users.DispatchPackets(id, outs, ch.members);
  }

  method CheckChannelOf(users: UserHub, hub: ChannelHub, id: ChannelId, now: nat)
    requires hub.Valid() && id in hub.channels
    modifies users, hub.channels[id].floor
    ensures users.registered == old(users.registered)
    ensures forall other :: other != id ==> users.Value(other) == old(users.Value(other))
    ensures forall i :: i in hub.channels && i != id ==>
              hub.channels[i].floor.Value() == old(hub.channels[i].floor.Value())
    ensures var ch := hub.channels[id];
            Sweeps(old(ch.floor.Value()), old(users.Value(id)), ch.members, now, ch.floor.Value(), users.Value(id))
  {
    hide Sweeps, FloorControl.Value, UserHub.Value;
    CheckChannel(users, id, hub.channels[id], now);
  }

  /** The reaper's pass over all channels, in any order, each under its own lock with its own clock reading. */
  method CheckFloorTimeouts(users: UserHub, hub: ChannelHub, clock: map<ChannelId, nat>)
    requires hub.Valid() && hub.channels.Keys <= clock.Keys
    modifies users, hub.Floors()
    ensures forall id :: id in hub.channels ==>
              var ch := hub.channels[id];
              Sweeps(old(ch.floor.Value()), old(users.Value(id)), ch.members, clock[id],
                     ch.floor.Value(), users.Value(id))
    ensures forall id :: id !in hub.channels ==> users.Value(id) == old(users.Value(id))
  {
    hide Sweeps, FloorControl.Value, UserHub.Value;
    var rest := hub.channels.Keys;
    while rest != {}
      invariant rest <= hub.channels.Keys
      invariant users.registered == old(users.registered)
      invariant forall id :: id in rest ==> hub.channels[id].floor.Value() == old(hub.channels[id].floor.Value())
      invariant forall id :: id in rest || id !in hub.channels ==> users.Value(id) == old(users.Value(id))
      invariant forall id :: id in hub.channels && id !in rest ==>
                  var ch := hub.channels[id];
                  Sweeps(old(ch.floor.Value()), old(users.Value(id)), ch.members, clock[id],
                         ch.floor.Value(), users.Value(id))
      decreases rest
    {
      var id :| id in rest;
      rest := rest - {id};
      assert hub.channels[id].floor in hub.Floors();
      CheckChannelOf(users, hub, id, clock[id]);
    }
  }

  /** Does nothing for a channel that is gone. */
  method OnUserDisconnect(users: UserHub, hub: ChannelHub, id: ChannelId, now: nat, user: UserId)
    modifies users, if id in hub.channels then {hub.channels[id].floor} else {}
    ensures forall other :: other != id || id !in hub.channels ==> users.Value(other) == old(users.Value(other))
    ensures users.registered == old(users.registered)
    ensures id in hub.channels ==>
              var ch := hub.channels[id];
              var (floor, outs) := Step(old(ch.floor.Value()), now, Disconnect(user));
              ch.floor.Value() == floor && users.Value(id) == Dispatch(old(users.Value(id)), ch.members, outs)
  {
    if id !in hub.channels {
      return;
    }
    var ch := hub.channels[id];
    ch.floor.RemoveFromQueue(user);
    var outs: seq<Outgoing> := [];
    if ch.floor.takenBy == Some(user) {
      outs := DecideNextHolder(ch.floor, now);
    }
    users.DispatchPackets(id, outs, ch.members);
  }

  /** First critical section of the admin revoke. */
  method AdminCheck(ch: Channel) returns (wasTaken: bool, holder: Option<UserId>)
    ensures wasTaken == ch.floor.phase.Taken? && holder == ch.floor.takenBy
  {
    wasTaken, holder := ch.floor.phase.Taken?, ch.floor.takenBy;
  }

  /** Second critical section, with the holder that the first one saw. */
  method AdminRevoke(users: UserHub, id: ChannelId, ch: Channel, checked: Option<UserId>)
    modifies users, ch.floor
    ensures forall other :: other != id ==> users.Value(other) == old(users.Value(other))
    ensures var (floor, outs) := Step(old(ch.floor.Value()), 0, AdminClear(checked));
            ch.floor.Value() == floor && users.Value(id) == Dispatch(old(users.Value(id)), ch.members, outs)
  {
    ch.floor.queue := [];
    ch.floor.ClearTaken();
    var outs := [ToMembers(None, FloorIdle)];
    if checked.Some? {
      outs := [ToUser(checked.value, FloorRevoke("admin_revoke"))] + outs;
    }
    users.DispatchPackets(id, outs, ch.members);
  }
}
