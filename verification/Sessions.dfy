/**
 * The state that one WebSocket session touches across all hubs: `handle_channel_join`, `handle_channel_leave` and
 * `cleanup` of src/protocol/protocol.rs, and the user sweep of src/reaper.rs. Channel events other than the floor
 * packets are left out.
 */
module Sessions {
  import opened Basics
  import opened FloorControls
  import opened FloorMachine
  import opened Delivery
  import opened FloorServer
  import opened MediaPeers
  import Views = ChannelViews

  class Session {
    var user: Option<UserId>
    var channel: Option<ChannelId>
    var ufrag: Option<Ufrag>

    /** The channel and the endpoint are set together. */
    predicate Valid()
      reads this
    {
      channel.Some? <==> ufrag.Some?
    }

    constructor ()
      ensures Valid() && user == None && channel == None
    {
      user, channel, ufrag := None, None, None;
    }
  }

  /** `user` is a member, holds the floor or waits for it. */
  ghost predicate Mentions(ch: Channel, user: UserId)
    reads ch, ch.floor
  {
    user in ch.members || Views.OnFloor(ch.floor.Value(), user)
  }

  ghost function ChannelObjects(hub: ChannelHub): set<object>
    reads hub
  {
    set id | id in hub.channels :: hub.channels[id]
  }

  lemma NoChannelObject(hub: ChannelHub, o: object)
    requires !(o is Channel) && !(o is FloorControl)
    ensures o !in ChannelObjects(hub) && o !in hub.Floors()
  {
  }

  /** The objects of one channel. */
  ghost function Own(hub: ChannelHub, id: ChannelId): set<object>
    reads hub
  {
    if id in hub.channels then {hub.channels[id], hub.channels[id].floor} else {}
  }

  ghost predicate FloorsSound(hub: ChannelHub)
    reads hub, ChannelObjects(hub), hub.Floors()
  {
    forall id :: id in hub.channels ==> FloorInv(hub.channels[id].floor.Value())
  }

  /** No channel mentions `user`, except perhaps `where`. */
  ghost predicate OnlyIn(hub: ChannelHub, user: UserId, where: Option<ChannelId>)
    reads hub, ChannelObjects(hub), hub.Floors()
  {
    forall id :: id in hub.channels && where != Some(id) ==> !Mentions(hub.channels[id], user)
  }

  ghost predicate NothingRelayedTo(media: MediaPeerHub, user: UserId)
    reads media
  {
    forall ssrc: u32, target: Target :: target in TargetsOf(media.relay, ssrc) ==> target.receiver != user
  }

  /** No live endpoint is of `user`, except perhaps the one under `where`. */
  ghost predicate NoEndpoint(media: MediaPeerHub, user: UserId, where: Option<Ufrag>)
    reads media`byUfrag
  {
    forall u :: u in media.byUfrag && media.byUfrag[u].userId == user ==> where == Some(u)
  }

  /** What `user` leaves behind in the media: the consumer SSRCs of all others, and the relay map of channel `id`. */
  ghost predicate Departed(media: MediaPeerHub, before: Consumers, user: UserId, id: ChannelId)
    reads media, media.byUfrag.Values
  {
    && NoConsumer(media.consumers, user) && NothingRelayedTo(media, user)
    && (forall key :: key in before && key.receiver != user && key.sender != user
                      ==> key in media.consumers && media.consumers[key] == before[key])
    && Rebuilt(media.relay, media.Sources(), media.consumers, id)
  }

  /** The floor and what its channel sees after the user's disconnect. */
  function Freed(f: Floor, hub: Hub, members: set<UserId>, now: nat, user: UserId): (Floor, Hub) {
    var (floor, outs) := Step(f, now, Disconnect(user));
    (floor, Dispatch(hub, members, outs))
  }

  // ------------------------------------------------------------------------
  // CHANNEL_JOIN
  // ------------------------------------------------------------------------

  predicate HasSsrc(tracks: seq<Track>, ssrc: u32) {
    exists i :: 0 <= i < |tracks| && tracks[i].ssrc == ssrc
  }

  function WithTrack(tracks: seq<Track>, t: Track): seq<Track> {
    if HasSsrc(tracks, t.ssrc) then tracks else tracks + [t]
  }

  /** The tracks of the request, the first of each SSRC. */
  function Registered(tracks: seq<Track>): seq<Track> {
    if tracks == [] then [] else WithTrack(Registered(tracks[..|tracks| - 1]), tracks[|tracks| - 1])
  }

  lemma HasSsrcSnoc(tracks: seq<Track>, t: Track, ssrc: u32)
    ensures HasSsrc(tracks + [t], ssrc) <==> HasSsrc(tracks, ssrc) || t.ssrc == ssrc
  {
    var all := tracks + [t];
    assert all[|tracks|] == t;
    if HasSsrc(tracks, ssrc) {
      var i :| 0 <= i < |tracks| && tracks[i].ssrc == ssrc;
      assert all[i] == tracks[i];
    }
  }

  /** `t` is the first of the tracks with its SSRC. */
  predicate IsFirst(tracks: seq<Track>, t: Track) {
    exists i :: 0 <= i < |tracks| && tracks[i] == t && !HasSsrc(tracks[..i], t.ssrc)
  }

  lemma FirstSnoc(tracks: seq<Track>, last: Track, t: Track)
    ensures IsFirst(tracks + [last], t) <==> IsFirst(tracks, t) || (t == last && !HasSsrc(tracks, t.ssrc))
  {
    hide HasSsrc;
    var all := tracks + [last];
    assert all[..|tracks|] == tracks && all[|tracks|] == last;
    forall i | 0 <= i < |tracks| ensures all[..i] == tracks[..i] && all[i] == tracks[i] {}
  }

  /** Exactly the first track of each requested SSRC is registered, with its kind, and no SSRC twice. */
  lemma {:induction false} RegisteredSsrcs(tracks: seq<Track>, t: Track)
    ensures HasSsrc(Registered(tracks), t.ssrc) <==> HasSsrc(tracks, t.ssrc)
    ensures t in Registered(tracks) <==> IsFirst(tracks, t)
    ensures forall i, j :: 0 <= i < j < |Registered(tracks)| ==>
              Registered(tracks)[i].ssrc != Registered(tracks)[j].ssrc
  {
    if tracks != [] {
      var n := |tracks| - 1;
      var before := Registered(tracks[..n]);
      RegisteredSsrcs(tracks[..n], t);
      RegisteredSsrcs(tracks[..n], tracks[n]);
      HasSsrcSnoc(before, tracks[n], t.ssrc);
      HasSsrcSnoc(tracks[..n], tracks[n], t.ssrc);
      FirstSnoc(tracks[..n], tracks[n], t);
      assert tracks == tracks[..n] + [tracks[n]];
      hide IsFirst;
    }
  }

  method RegisterTracks(ep: Endpoint, tracks: seq<Track>)
    requires ep.tracks == []
    modifies ep`tracks
    ensures ep.tracks == Registered(tracks)
  {
    for i := 0 to |tracks|
      invariant ep.tracks == Registered(tracks[..i])
    {
      assert tracks[..i + 1][..i] == tracks[..i];
      ep.AddTrack(tracks[i].ssrc, tracks[i].kind);
    }
    assert tracks[..|tracks|] == tracks;
  }

  /**
   * Joining does not ask whether the session is in another channel: the session's channel is the only one that
   * mentions the user afterwards exactly when no other one did before.
   */
  method HandleChannelJoin(session: Session, users: UserHub, hub: ChannelHub, media: MediaPeerHub,
                           id: ChannelId, ufrag: Ufrag, pwd: string, ssrc: u32, tracks: seq<Track>)
    returns (reply: Reply)
    requires session.Valid() && session.user.Some? && hub.Valid() && media.Valid()
    modifies session, users, media, if id in hub.channels then {hub.channels[id]} else {}
    ensures session.Valid() && media.Valid() && session.user == old(session.user) && hub.channels == old(hub.channels)
    ensures id !in hub.channels ==> reply == Err(ChannelNotFound)
    ensures id in hub.channels ==>
              var members := old(hub.channels[id].members);
              reply == if |members| >= hub.channels[id].capacity then Err(ChannelFull)
                       else if session.user.value in members then Err(AlreadyInChannel) else Ok
    ensures reply != Ok ==>
              && session.channel == old(session.channel) && session.ufrag == old(session.ufrag)
              && (forall i :: users.Value(i) == old(users.Value(i))) && media.byUfrag == old(media.byUfrag)
              && forall i :: i in hub.channels ==> hub.channels[i].members == old(hub.channels[i].members)
    ensures reply == Ok ==>
              var user, ch := session.user.value, hub.channels[id];
              && session.channel == Some(id) && session.ufrag == Some(ufrag)
              && ch.members == old(ch.members) + {user}
              && (forall i :: i in hub.channels && i != id ==> hub.channels[i].members == old(hub.channels[i].members))
              && ufrag in media.byUfrag && media.byUfrag == old(media.byUfrag)[ufrag := media.byUfrag[ufrag]]
              && media.byUfrag[ufrag].AsSource()
                 == Source(user, id, Registered(if tracks == [] then [Track(ssrc, Audio)] else tracks))
              && media.byUfrag[ufrag].ufrag == ufrag && media.byUfrag[ufrag].icePwd == pwd
              && users.Value(id) == (if ch.floor.phase.Taken? && ch.floor.takenBy.Some?
                                     then old(users.Value(id)).Sent({user}, FloorTaken(ch.floor.takenBy.value, Normal))
                                     else old(users.Value(id)))
              && (forall i :: i != id ==> users.Value(i) == old(users.Value(i)))
              && (OnlyIn(hub, user, session.channel) <==> old(OnlyIn(hub, user, Some(id))))
  {
    hide Views.OnFloor, FloorInv, Registered, Hub.Sent, MediaPeerHub.Valid, FloorControl.Value, UserHub.Value;
    var user := session.user.value;
    if id !in hub.channels {
      return Err(ChannelNotFound);
    }
    var ch := hub.channels[id];
    reply := ch.AddMember(user);
    if reply.Err? {
      return;
    }
    var given := if tracks == [] then [Track(ssrc, Audio)] else tracks;
    Enter(session, users, media, id, ch, ufrag, pwd, given);
    assert forall i :: i in hub.channels && i != id ==>
      Mentions(hub.channels[i], user) == old(Mentions(hub.channels[i], user));
  }

  /** What follows once the user is a member. */
  method Enter(session: Session, users: UserHub, media: MediaPeerHub, id: ChannelId, ch: Channel, ufrag: Ufrag,
               pwd: string, tracks: seq<Track>)
    requires media.Valid() && session.user.Some?
    modifies session, users, media`byUfrag
    ensures session.user == old(session.user) && session.channel == Some(id) && session.ufrag == Some(ufrag)
    ensures media.Valid() && ufrag in media.byUfrag
    ensures media.byUfrag == old(media.byUfrag)[ufrag := media.byUfrag[ufrag]]
    ensures media.byUfrag[ufrag].AsSource() == Source(session.user.value, id, Registered(tracks))
    ensures media.byUfrag[ufrag].ufrag == ufrag && media.byUfrag[ufrag].icePwd == pwd
    ensures users.Value(id) == if ch.floor.phase.Taken? && ch.floor.takenBy.Some?
                               then old(users.Value(id)).Sent({session.user.value},
                                                              FloorTaken(ch.floor.takenBy.value, Normal))
                               else old(users.Value(id))
    ensures forall other :: other != id ==> users.Value(other) == old(users.Value(other))
  {
    hide Registered, Hub.Sent, MediaPeerHub.Valid, UserHub.Value;
    EnterMedia(media, id, session.user.value, ufrag, pwd, tracks);
    session.channel, session.ufrag := Some(id), Some(ufrag);
    TellHolder(users, id, ch, session.user.value);
  }

  method EnterMedia(media: MediaPeerHub, id: ChannelId, user: UserId, ufrag: Ufrag, pwd: string,
                    tracks: seq<Track>)
    requires media.Valid()
    modifies media`byUfrag
    ensures media.Valid() && ufrag in media.byUfrag && fresh(media.byUfrag[ufrag])
    ensures media.byUfrag == old(media.byUfrag)[ufrag := media.byUfrag[ufrag]]
    ensures media.byUfrag[ufrag].AsSource() == Source(user, id, Registered(tracks))
    ensures media.byUfrag[ufrag].ufrag == ufrag && media.byUfrag[ufrag].icePwd == pwd
  {
    var ep := media.Insert(ufrag, pwd, user, id);
    RegisterTracks(ep, tracks);
  }

  /** A late joiner is told who speaks, always as a normal talk burst. */
  method TellHolder(users: UserHub, id: ChannelId, ch: Channel, user: UserId)
    modifies users
    ensures users.Value(id) == if ch.floor.phase.Taken? && ch.floor.takenBy.Some?
                               then old(users.Value(id)).Sent({user}, FloorTaken(ch.floor.takenBy.value, Normal))
                               else old(users.Value(id))
    ensures forall other :: other != id ==> users.Value(other) == old(users.Value(other))
  {
    if ch.floor.phase.Taken? && ch.floor.takenBy.Some? {
      users.Send(id, user, FloorTaken(ch.floor.takenBy.value, Normal));
    }
  }

  // ------------------------------------------------------------------------
  // CHANNEL_LEAVE
  // ------------------------------------------------------------------------

  /**
   * Leaving takes the user out of the members and the media, and keeps every floor: afterwards no channel mentions
   * the user exactly when none did before, apart from the membership given up.
   */
  method HandleChannelLeave(session: Session, hub: ChannelHub, media: MediaPeerHub, id: ChannelId)
    returns (left: bool)
    requires session.Valid() && session.user.Some? && hub.Valid() && media.Valid()
    modifies session, media, if id in hub.channels then {hub.channels[id]} else {}
    ensures session.Valid() && media.Valid() && session.user == old(session.user) && hub.channels == old(hub.channels)
    ensures left <==> old(session.channel) == Some(id)
    ensures !left ==> session.channel == old(session.channel) && media.byUfrag == old(media.byUfrag)
                      && media.consumers == old(media.consumers) && media.relay == old(media.relay)
    ensures forall i :: i in hub.channels ==>
              hub.channels[i].members
              == if left && i == id then old(hub.channels[i].members) - {session.user.value}
                 else old(hub.channels[i].members)
    ensures left ==>
              var user := session.user.value;
              && session.channel == None
              && media.byUfrag == old(media.byUfrag) - {old(session.ufrag).value}
              && Departed(media, old(media.consumers), user, id)
              && (OnlyIn(hub, user, session.channel) <==>
                    old(OnlyIn(hub, user, Some(id)))
                    && (id in hub.channels ==> !Views.OnFloor(hub.channels[id].floor.Value(), user)))
  {
    hide Views.OnFloor, Departed, MediaPeerHub.Valid;
    if session.channel != Some(id) {
      return false;
    }
    var user := session.user.value;
    TakeOut(hub, media, id, session.ufrag.value, user);
    assert forall i :: i in hub.channels && i != id ==>
      Mentions(hub.channels[i], user) == old(Mentions(hub.channels[i], user));
    session.channel, session.ufrag := None, None;
    return true;
  }

  // ------------------------------------------------------------------------
  // The end of a session
  // ------------------------------------------------------------------------

  /** Channel `id` as it is after the session of `user` ended, and as it was before. */
  predicate Ended(members: set<UserId>, floor: Floor, seen: Hub, oldMembers: set<UserId>, oldFloor: Floor, oldSeen: Hub,
                  mine: bool, user: UserId, now: nat) {
    if mine then
      var (freed, told) := Freed(oldFloor, oldSeen, members, now, user);
      members == oldMembers - {user} && floor == freed && seen == told.(registered := told.registered - {user})
    else
      members == oldMembers && floor == oldFloor && seen == oldSeen.(registered := oldSeen.registered - {user})
  }

  /**
   * After the end of a session its user is unregistered and gone from the session's channel: not a member, holder
   * or waiter, at neither end of a consumer SSRC, and no relay target; the remaining members are told of a floor that
   * becomes free. No channel at all mentions the user if and only if none but the session's did before, and no live
   * endpoint is the user's if and only if none but the session's was.
   */
  method Cleanup(session: Session, users: UserHub, hub: ChannelHub, media: MediaPeerHub, now: nat)
    requires session.Valid() && hub.Valid() && media.Valid() && FloorsSound(hub)
    modifies session, users, media, if session.channel.Some? then Own(hub, session.channel.value) else {}
    ensures session.user == None && session.Valid() && media.Valid() && hub.channels == old(hub.channels)
    ensures FloorsSound(hub)
    ensures old(session.user).None? ==> users.registered == old(users.registered) && media.byUfrag == old(media.byUfrag)
    ensures old(session.user).Some? ==>
              var user := old(session.user).value;
              && session.channel == None && user !in users.registered
              && (forall id :: id in hub.channels ==>
                    var ch := hub.channels[id];
                    Ended(ch.members, ch.floor.Value(), users.Value(id),
                          old(ch.members), old(ch.floor.Value()), old(users.Value(id)),
                          old(session.channel) == Some(id), user, now))
              && (old(session.channel).Some? ==>
                    && (old(session.channel).value in hub.channels ==>
                          !Mentions(hub.channels[old(session.channel).value], user))
                    && media.byUfrag == old(media.byUfrag) - {old(session.ufrag).value}
                    && Departed(media, old(media.consumers), user, old(session.channel).value))
              && (OnlyIn(hub, user, None) <==> old(OnlyIn(hub, user, session.channel)))
              && (NoEndpoint(media, user, None) <==> old(NoEndpoint(media, user, session.ufrag)))
  {
    hide Mentions, OnlyIn, FloorInv, Ended, Departed, MediaPeerHub.Valid, ChannelObjects, Own, FloorControl.Value,
         UserHub.Value;
    if session.user.None? {
      return;
    }
    var user, channel, ufrag := session.user.value, session.channel, session.ufrag;
    EndIn(users, hub, media, channel, ufrag.GetOr([]), user, now);
    NoChannelObject(hub, session);
    session.user, session.channel, session.ufrag := None, None, None;
  }

  /** The part of the end of a session that concerns the hubs. */
  method EndIn(users: UserHub, hub: ChannelHub, media: MediaPeerHub, channel: Option<ChannelId>,
               ufrag: Ufrag, user: UserId, now: nat)
    requires hub.Valid() && media.Valid() && FloorsSound(hub)
    modifies users, media, if channel.Some? then Own(hub, channel.value) else {}
    ensures media.Valid() && hub.channels == old(hub.channels) && FloorsSound(hub) && user !in users.registered
    ensures forall id :: id in hub.channels ==>
              var ch := hub.channels[id];
              Ended(ch.members, ch.floor.Value(), users.Value(id),
                    old(ch.members), old(ch.floor.Value()), old(users.Value(id)), channel == Some(id), user, now)
    ensures channel.Some? ==>
              && (channel.value in hub.channels ==> !Mentions(hub.channels[channel.value], user))
              && media.byUfrag == old(media.byUfrag) - {ufrag}
              && Departed(media, old(media.consumers), user, channel.value)
    ensures channel.None? ==> media.byUfrag == old(media.byUfrag)
    ensures OnlyIn(hub, user, None) <==> old(OnlyIn(hub, user, channel))
  {
    hide Mentions, OnlyIn, FloorInv, Freed, Departed, MediaPeerHub.Valid, Own;
    if channel.Some? {
      CloseChannel(users, hub, media, channel.value, ufrag, user, now);
    }
    NoChannelObject(hub, users);
    users.Unregister(user);
  }

  /** What the end of a session does to its channel. */
  method CloseChannel(users: UserHub, hub: ChannelHub, media: MediaPeerHub, id: ChannelId, ufrag: Ufrag,
                      user: UserId, now: nat)
    requires hub.Valid() && media.Valid() && FloorsSound(hub)
    modifies users, media, Own(hub, id)
    ensures media.Valid() && hub.channels == old(hub.channels) && FloorsSound(hub)
    ensures users.registered == old(users.registered)
    ensures media.byUfrag == old(media.byUfrag) - {ufrag}
    ensures Departed(media, old(media.consumers), user, id)
    ensures forall i :: i !in hub.channels || i != id ==> users.Value(i) == old(users.Value(i))
    ensures forall i :: i in hub.channels && i != id ==>
              && hub.channels[i].members == old(hub.channels[i].members)
              && hub.channels[i].floor.Value() == old(hub.channels[i].floor.Value())
    ensures id in hub.channels ==>
              var ch := hub.channels[id];
              && ch.members == old(ch.members) - {user}
              && (ch.floor.Value(), users.Value(id))
                 == Freed(old(ch.floor.Value()), old(users.Value(id)), ch.members, now, user)
              && !Mentions(ch, user)
    ensures OnlyIn(hub, user, None) <==> old(OnlyIn(hub, user, Some(id)))
  {
    hide Views.OnFloor, FloorInv, Freed, Departed, MediaPeerHub.Valid, FloorControl.Value, UserHub.Value;
    TakeOut(hub, media, id, ufrag, user);
    FreeFloor(users, hub, id, now, user);
    assert forall i :: i in hub.channels && i != id ==>
      Mentions(hub.channels[i], user) == old(Mentions(hub.channels[i], user));
    NotEvenThere(hub, user, Some(id));
  }

  lemma NotEvenThere(hub: ChannelHub, user: UserId, where: Option<ChannelId>)
    requires where.Some? && where.value in hub.channels ==> !Mentions(hub.channels[where.value], user)
    ensures OnlyIn(hub, user, None) <==> OnlyIn(hub, user, where)
  {
    hide Mentions;
  }

  /** The members and the media forget the user. */
  method TakeOut(hub: ChannelHub, media: MediaPeerHub, id: ChannelId, ufrag: Ufrag, user: UserId)
    requires hub.Valid() && media.Valid()
    modifies media, if id in hub.channels then {hub.channels[id]} else {}
    ensures media.Valid() && media.byUfrag == old(media.byUfrag) - {ufrag}
    ensures Departed(media, old(media.consumers), user, id)
    ensures forall i :: i in hub.channels ==>
              && hub.channels[i].members
                 == (if i == id then old(hub.channels[i].members) - {user} else old(hub.channels[i].members))
              && hub.channels[i].floor.Value() == old(hub.channels[i].floor.Value())
  {
    hide MediaPeerHub.Valid, NoConsumer, Rebuilt;
    if id in hub.channels {
      hub.channels[id].RemoveMember(user);
    }
    media.Depart(ufrag, user, id);
  }

  /** `on_user_disconnect` frees the floor. */
  method FreeFloor(users: UserHub, hub: ChannelHub, id: ChannelId, now: nat, user: UserId)
    requires hub.Valid() && FloorsSound(hub)
    modifies users, if id in hub.channels then {hub.channels[id].floor} else {}
    ensures FloorsSound(hub)
    ensures users.registered == old(users.registered)
    ensures forall i :: i !in hub.channels || i != id ==> users.Value(i) == old(users.Value(i))
    ensures forall i :: i in hub.channels ==> hub.channels[i].members == old(hub.channels[i].members)
    ensures forall i :: i in hub.channels && i != id ==>
              hub.channels[i].floor.Value() == old(hub.channels[i].floor.Value())
    ensures id in hub.channels ==>
              var ch := hub.channels[id];
              && (ch.floor.Value(), users.Value(id))
                 == Freed(old(ch.floor.Value()), old(users.Value(id)), ch.members, now, user)
              && !Views.OnFloor(ch.floor.Value(), user)
  {
    hide Views.OnFloor, FloorInv, Step, Dispatch;
    if id in hub.channels {
      StepInv(hub.channels[id].floor.Value(), now, Disconnect(user));
      Views.DisconnectFreesFloor(hub.channels[id].floor.Value(), now, user);
    }
    OnUserDisconnect(users, hub, id, now, user);
  }

  /** The user may join and nobody speaks. */
  ghost predicate Open(ch: Channel, user: UserId)
    reads ch, ch.floor
  {
    user !in ch.members && |ch.members| < ch.capacity && ch.floor.phase.Idle?
  }

  method JoinOpen(session: Session, users: UserHub, hub: ChannelHub, media: MediaPeerHub, id: ChannelId, ufrag: Ufrag,
                  user: UserId)
    requires session.Valid() && session.user == Some(user) && hub.Valid() && media.Valid() && FloorsSound(hub)
    requires id in hub.channels && Open(hub.channels[id], user)
    modifies session, users, media, hub.channels[id]
    ensures session.Valid() && session.user == Some(user) && session.channel == Some(id) && session.ufrag == Some(ufrag)
    ensures hub.channels == old(hub.channels) && media.Valid() && FloorsSound(hub)
    ensures user in hub.channels[id].members && hub.channels[id].floor.Value() == old(hub.channels[id].floor.Value())
    ensures ufrag in media.byUfrag && media.byUfrag[ufrag].userId == user
    ensures media.byUfrag == old(media.byUfrag)[ufrag := media.byUfrag[ufrag]]
  {
    hide FloorInv, OnlyIn, Views.OnFloor, Registered, MediaPeerHub.Valid, Hub.Sent, UserHub.Value;
    var joined := HandleChannelJoin(session, users, hub, media, id, ufrag, "", 1, []);
  }

  /** Joins a channel and takes its floor. */
  method JoinAndSpeak(session: Session, users: UserHub, hub: ChannelHub, media: MediaPeerHub, id: ChannelId,
                      ufrag: Ufrag, user: UserId)
    requires session.Valid() && session.user == Some(user) && hub.Valid() && media.Valid() && FloorsSound(hub)
    requires id in hub.channels && Open(hub.channels[id], user)
    modifies session, users, media, Own(hub, id)
    ensures session.Valid() && session.user == Some(user) && session.channel == Some(id)
    ensures hub.channels == old(hub.channels) && media.Valid() && FloorsSound(hub)
    ensures user in hub.channels[id].members && hub.channels[id].floor.takenBy == Some(user)
    ensures session.ufrag == Some(ufrag) && ufrag in media.byUfrag && media.byUfrag[ufrag].userId == user
  {
    hide FloorInv, MediaPeerHub.Valid, Dispatch, UserHub.Value;
    JoinOpen(session, users, hub, media, id, ufrag, user);
    StepInv(hub.channels[id].floor.Value(), 0, Request(user, 100, Normal));
    var granted := HandleFloorRequest(users, hub, id, 0, user, Some(100), Normal);
  }

  /** A session that leaves while its user speaks: when it ends, the user still holds the floor. */
  method LeaverKeepsFloor(session: Session, users: UserHub, hub: ChannelHub, media: MediaPeerHub, id: ChannelId,
                          user: UserId)
    requires session.Valid() && session.user == Some(user) && hub.Valid() && media.Valid() && FloorsSound(hub)
    requires id in hub.channels && Open(hub.channels[id], user)
    modifies session, users, media, Own(hub, id)
    ensures session.user == None && user !in users.registered && hub.channels == old(hub.channels)
    ensures user !in hub.channels[id].members && hub.channels[id].floor.takenBy == Some(user)
  {
    hide FloorsSound, MediaPeerHub.Valid, FloorControl.Value;
    JoinAndSpeak(session, users, hub, media, id, [1], user);
    LeaveAndClose(session, users, hub, media, id, user);
  }

  method LeaveAndClose(session: Session, users: UserHub, hub: ChannelHub, media: MediaPeerHub, id: ChannelId,
                       user: UserId)
    requires session.Valid() && session.user == Some(user) && session.channel == Some(id)
    requires hub.Valid() && media.Valid() && FloorsSound(hub) && id in hub.channels
    modifies session, users, media, hub.channels[id]
    ensures session.user == None && user !in users.registered && hub.channels == old(hub.channels)
    ensures user !in hub.channels[id].members
  {
    LeaveOnly(session, hub, media, id, user);
    CloseLeft(session, users, hub, media, id, user);
  }

  method LeaveOnly(session: Session, hub: ChannelHub, media: MediaPeerHub, id: ChannelId, user: UserId)
    requires session.Valid() && session.user == Some(user) && session.channel == Some(id)
    requires hub.Valid() && media.Valid() && FloorsSound(hub) && id in hub.channels
    modifies session, media, hub.channels[id]
    ensures session.Valid() && session.user == Some(user) && session.channel == None
    ensures media.Valid() && FloorsSound(hub) && hub.channels == old(hub.channels) && user !in hub.channels[id].members
  {
    hide FloorInv, OnlyIn, Departed, NoEndpoint, MediaPeerHub.Valid, FloorControl.Value;
    var left := HandleChannelLeave(session, hub, media, id);
  }

  /** The end of a session that is in no channel changes none. */
  method CloseLeft(session: Session, users: UserHub, hub: ChannelHub, media: MediaPeerHub, id: ChannelId, user: UserId)
    requires session.Valid() && session.user == Some(user) && session.channel == None
    requires hub.Valid() && media.Valid() && FloorsSound(hub) && id in hub.channels
    modifies session, users, media
    ensures session.user == None && user !in users.registered && hub.channels == old(hub.channels)
    ensures hub.channels[id].members == old(hub.channels[id].members)
  {
    hide FloorInv, OnlyIn, Departed, NoEndpoint, MediaPeerHub.Valid, FloorControl.Value, Ended, Mentions;
    Cleanup(session, users, hub, media, 1);
  }

  /**
   * A session that moves to a second channel without leaving the first: when it ends, its user still speaks there, and
   * the first endpoint is still live.
   */
  method MoverKeepsFirst(session: Session, users: UserHub, hub: ChannelHub, media: MediaPeerHub, first: ChannelId,
                         second: ChannelId, user: UserId)
    requires session.Valid() && session.user == Some(user) && hub.Valid() && media.Valid() && FloorsSound(hub)
    requires first in hub.channels && second in hub.channels && first != second
    requires Open(hub.channels[first], user) && Open(hub.channels[second], user)
    modifies session, users, media, Own(hub, first), Own(hub, second)
    ensures session.user == None && user !in users.registered && hub.channels == old(hub.channels)
    ensures user in hub.channels[first].members && hub.channels[first].floor.takenBy == Some(user)
    ensures [1] in media.byUfrag && media.byUfrag[[1]].userId == user
  {
    hide FloorInv, OnlyIn, Views.OnFloor, Departed, Freed, Registered, MediaPeerHub.Valid, Dispatch;
    JoinAndSpeak(session, users, hub, media, first, [1], user);
    MoveAndClose(session, users, hub, media, first, second, user);
  }

  method MoveAndClose(session: Session, users: UserHub, hub: ChannelHub, media: MediaPeerHub, first: ChannelId,
                      second: ChannelId, user: UserId)
    requires session.Valid() && session.user == Some(user) && hub.Valid() && media.Valid() && FloorsSound(hub)
    requires first in hub.channels && second in hub.channels && first != second && Open(hub.channels[second], user)
    modifies session, users, media, Own(hub, second)
    ensures session.user == None && user !in users.registered && hub.channels == old(hub.channels)
    ensures hub.channels[first].members == old(hub.channels[first].members)
    ensures hub.channels[first].floor.Value() == old(hub.channels[first].floor.Value())
    ensures forall u :: u in old(media.byUfrag) && u != [2] ==>
              u in media.byUfrag && media.byUfrag[u] == old(media.byUfrag)[u]
  {
    hide FloorInv, OnlyIn, Mentions, Departed, Ended, NoEndpoint, FloorsSound, MediaPeerHub.Valid, FloorControl.Value;
    JoinOpen(session, users, hub, media, second, [2], user);
    Cleanup(session, users, hub, media, 1);
  }

  /**
   * Two sessions of one user: when the older one ends, the registration goes, although the newer one is still there
   * and its user a member.
   */
  method OlderSessionUnregistersNewer(older: Session, newer: Session, users: UserHub, hub: ChannelHub,
                                      media: MediaPeerHub, id: ChannelId, user: UserId)
    requires older != newer && older.Valid() && older.user == Some(user) && older.channel == None
    requires newer.Valid() && newer.user == Some(user) && hub.Valid() && media.Valid() && FloorsSound(hub)
    requires id in hub.channels && Open(hub.channels[id], user)
    modifies older, newer, users, media, Own(hub, id)
    ensures newer.user == Some(user) && newer.channel == Some(id) && hub.channels == old(hub.channels)
    ensures user in hub.channels[id].members && user !in users.registered
  {
    hide FloorInv, OnlyIn, Mentions, Departed, NoEndpoint, FloorsSound, MediaPeerHub.Valid, FloorControl.Value;
    NoChannelObject(hub, users);
    users.Register(user, 100);
    JoinOpen(newer, users, hub, media, id, [1], user);
    Cleanup(older, users, hub, media, 1);
    assert id in hub.channels;
  }

  // ------------------------------------------------------------------------
  // The handlers are the steps of the channel
  // ------------------------------------------------------------------------

  /** `c` is channel `id` as it stands, seen with a session of `user` whose current channel is `current`. */
  ghost predicate Shows(c: Views.Channel, hub: ChannelHub, users: UserHub, id: ChannelId, current: Option<ChannelId>,
                        user: UserId)
    reads hub, users, Own(hub, id)
  {
    && id in hub.channels
    && c.floor == hub.channels[id].floor.Value() && c.members == hub.channels[id].members
    && c.capacity == hub.channels[id].capacity && c.hub == users.Value(id)
    && (user in c.current <==> current == Some(id))
  }

  /** CHANNEL_JOIN is the join of its channel, and for every other the loss of the session if it joined. */
  method JoinIsStep(session: Session, users: UserHub, hub: ChannelHub, media: MediaPeerHub, id: ChannelId,
                    ufrag: Ufrag, pwd: string, ssrc: u32, tracks: seq<Track>, ghost i: ChannelId,
                    ghost c: Views.Channel)
    returns (reply: Reply, ghost d: Views.Channel)
    requires session.Valid() && session.user.Some? && hub.Valid() && media.Valid()
    requires Shows(c, hub, users, i, session.channel, session.user.value)
    modifies session, users, media, if id in hub.channels then {hub.channels[id]} else {}
    ensures session.user == old(session.user)
    ensures d == if i == id then Views.ChannelStep(c, 0, Views.Join(session.user.value))
                 else if reply == Ok then Views.ChannelStep(c, 0, Views.JoinElsewhere(session.user.value))
                 else c
    ensures Shows(d, hub, users, i, session.channel, session.user.value)
  {
    hide OnlyIn, Registered, MediaPeerHub.Valid;
    reply := HandleChannelJoin(session, users, hub, media, id, ufrag, pwd, ssrc, tracks);
    d := if i == id then Views.ChannelStep(c, 0, Views.Join(session.user.value))
         else if reply == Ok then Views.ChannelStep(c, 0, Views.JoinElsewhere(session.user.value))
         else c;
  }

  /** CHANNEL_LEAVE is the leave of its channel and nothing for any other. */
  method LeaveIsStep(session: Session, users: UserHub, hub: ChannelHub, media: MediaPeerHub, id: ChannelId,
                     ghost i: ChannelId, ghost c: Views.Channel)
    returns (left: bool, ghost d: Views.Channel)
    requires session.Valid() && session.user.Some? && hub.Valid() && media.Valid()
    requires Shows(c, hub, users, i, session.channel, session.user.value)
    modifies session, media, if id in hub.channels then {hub.channels[id]} else {}
    ensures session.user == old(session.user)
    ensures d == if i == id then Views.ChannelStep(c, 0, Views.Leave(session.user.value)) else c
    ensures Shows(d, hub, users, i, session.channel, session.user.value)
  {
    hide OnlyIn, Departed, MediaPeerHub.Valid;
    left := HandleChannelLeave(session, hub, media, id);
    d := if i == id then Views.ChannelStep(c, 0, Views.Leave(session.user.value)) else c;
  }

  /** The end of a session is the cleanup of every channel. */
  method CleanupIsStep(session: Session, users: UserHub, hub: ChannelHub, media: MediaPeerHub, now: nat,
                       ghost i: ChannelId, ghost c: Views.Channel)
    returns (ghost d: Views.Channel)
    requires session.Valid() && session.user.Some? && hub.Valid() && media.Valid() && FloorsSound(hub)
    requires Shows(c, hub, users, i, session.channel, session.user.value)
    modifies session, users, media, if session.channel.Some? then Own(hub, session.channel.value) else {}
    ensures d == Views.ChannelStep(c, now, Views.Cleanup(old(session.user).value))
    ensures Shows(d, hub, users, i, session.channel, old(session.user).value)
  {
    hide OnlyIn, Departed, Mentions, MediaPeerHub.Valid, FloorInv, Step, Dispatch;
    ghost var user, current := session.user.value, session.channel;
    Cleanup(session, users, hub, media, now);
    d := Views.ChannelStep(c, now, Views.Cleanup(user));
    EndedIsCleanup(c, hub.channels[i].members, hub.channels[i].floor.Value(), users.Value(i), user, now);
  }

  lemma EndedIsCleanup(c: Views.Channel, members: set<UserId>, floor: Floor, seen: Hub, user: UserId, now: nat)
    requires Ended(members, floor, seen, c.members, c.floor, c.hub, user in c.current, user, now)
    ensures var d := Views.ChannelStep(c, now, Views.Cleanup(user));
            d.members == members && d.floor == floor && d.hub == seen && d.capacity == c.capacity && user !in d.current
  {
    hide Step, Dispatch;
  }

  // ------------------------------------------------------------------------
  // The user sweep of the reaper
  // ------------------------------------------------------------------------

  method RemoveFromAll(hub: ChannelHub, user: UserId)
    requires hub.Valid()
    modifies ChannelObjects(hub)
    ensures forall id :: id in hub.channels ==> hub.channels[id].members == old(hub.channels[id].members) - {user}
  {
    var rest := hub.channels.Keys;
    while rest != {}
      invariant rest <= hub.channels.Keys
      invariant forall id :: id in hub.channels ==>
                  hub.channels[id].members
                  == if id in rest then old(hub.channels[id].members) else old(hub.channels[id].members) - {user}
      decreases rest
    {
      var id :| id in rest;
      rest := rest - {id};
      hub.channels[id].RemoveMember(user);
    }
  }

  /** Silent users lose their registration and their memberships; floors are left to their own timeouts. */
  method ReapUsers(users: UserHub, hub: ChannelHub, dead: set<UserId>)
    requires hub.Valid()
    modifies users, ChannelObjects(hub)
    ensures users.registered == old(users.registered) - dead && users.inboxes == old(users.inboxes)
    ensures forall id :: id in hub.channels ==> hub.channels[id].members == old(hub.channels[id].members) - dead
  {
    var rest := dead;
    while rest != {}
      invariant rest <= dead
      invariant users.registered == old(users.registered) - (dead - rest) && users.inboxes == old(users.inboxes)
      invariant forall id :: id in hub.channels ==>
                  hub.channels[id].members == old(hub.channels[id].members) - (dead - rest)
      decreases rest
    {
      var user :| user in rest;
      rest := rest - {user};
      RemoveFromAll(hub, user);
      users.Unregister(user);
    }
  }
}
