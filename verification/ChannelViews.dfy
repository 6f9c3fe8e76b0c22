/**
 * One channel with its members, sessions and inboxes, every handler an atomic step: what members hear
 * about the floor, and what a closing session leaves behind.
 *
 * `current` holds the users whose session has this channel as its current one. `joinedAt` marks how long
 * a member's inbox was when it joined. `late` holds the users that joined during the tenure that still lasts.
 */
module ChannelViews {
  import opened Basics
  import opened FloorControls
  import opened FloorMachine
  import opened Delivery

  datatype Channel = Channel(
    floor: Floor,
    members: set<UserId>,
    capacity: nat,
    current: set<UserId>,
    hub: Hub,
    joinedAt: map<UserId, nat>,
    late: set<UserId>
  )

  datatype ChannelEvent =
    | FloorOp(event: FloorEvent)
    | AdminRevoke
    | Join(user: UserId)
    | JoinElsewhere(user: UserId)
    | Leave(user: UserId)
    | Cleanup(user: UserId)
    | Identify(user: UserId, priority: byte)
    | Reap(dead: set<UserId>)

  function NewChannel(capacity: nat, hub: Hub): Channel {
    Channel(NEW_FLOOR, {}, capacity, {}, hub, map[], {})
  }

  /** The event ends the tenure of the holder or starts one. */
  predicate EndsTenure(f: Floor, now: nat, ev: FloorEvent) {
    || (ev.Request? && (f.phase.Idle? || CanPreempt(f, ev.priority, ev.indicator)))
    || Decides(f, now, ev) || ev.AdminClear?
  }

  /** A floor handler: the critical section, then the dispatch of its packets. */
  function FloorStep(c: Channel, now: nat, ev: FloorEvent): Channel {
    var (g, outs) := Step(c.floor, now, ev);
    c.(floor := g, hub := Dispatch(c.hub, c.members, outs), late := if EndsTenure(c.floor, now, ev) then {} else c.late)
  }

  /** CHANNEL_JOIN: refused when full or already joined; a late joiner hears of a floor already taken. */
  function OnJoin(c: Channel, user: UserId): Channel {
    if |c.members| >= c.capacity || user in c.members then c
    else
      var d := c.(members := c.members + {user}, current := c.current + {user},
                  joinedAt := c.joinedAt[user := |c.hub.Inbox(user)|]);
      if c.floor.phase.Taken? && c.floor.takenBy.Some?
      then d.(hub := c.hub.Sent({user}, FloorTaken(c.floor.takenBy.value, Normal)), late := c.late + {user})
      else d
  }

  /** CHANNEL_LEAVE: leaves the members and the session, not the floor. */
  function OnLeave(c: Channel, user: UserId): Channel {
    if user !in c.current then c
    else c.(members := c.members - {user}, current := c.current - {user})
  }

  /** The end of a WebSocket session. */
  function OnCleanup(c: Channel, now: nat, user: UserId): Channel {
    var d :=
      if user in c.current
      then FloorStep(c.(members := c.members - {user}, current := c.current - {user}), now, Disconnect(user))
      else c;
    d.(hub := d.hub.(registered := d.hub.registered - {user}))
  }

  function ChannelStep(c: Channel, now: nat, e: ChannelEvent): Channel {
    match e
    case FloorOp(ev) => FloorStep(c, now, ev)
    case AdminRevoke => if c.floor.phase.Taken? then FloorStep(c, now, AdminClear(c.floor.takenBy)) else c
    case Join(user) => OnJoin(c, user)
    case JoinElsewhere(user) => c.(current := c.current - {user})
    case Leave(user) => OnLeave(c, user)
    case Cleanup(user) => OnCleanup(c, now, user)
    case Identify(user, priority) => c.(hub := c.hub.(registered := c.hub.registered[user := priority]))
    case Reap(dead) => c.(members := c.members - dead, hub := c.hub.(registered := c.hub.registered - dead))
  }

  datatype TimedEvent = TimedEvent(at: nat, event: ChannelEvent)

  function ChannelAt(c: Channel, run: seq<TimedEvent>, i: nat): Channel
    requires i <= |run|
  {
    if i == 0 then c
    else ChannelStep(ChannelAt(c, run, i - 1), run[i - 1].at, run[i - 1].event)
  }

  // ------------------------------------------------------------------------
  // What a client makes of the packets it hears
  // ------------------------------------------------------------------------

  /** A client's idea of the floor; it is not told the indicator of its own talk burst. */
  datatype Talk = Quiet | Talking(user: UserId, indicator: Option<FloorIndicator>) {
    function Holder(): Option<UserId> {
      if Quiet? then None else Some(user)
    }
  }

  /** That idea after one more packet. */
  function Hear(view: Talk, p: Packet): Talk {
    match p
    case FloorGranted(user, _) => Talking(user, None)
    case FloorTaken(user, indicator) => Talking(user, Some(indicator))
    case FloorIdle => Quiet
    case FloorRevoke(_) => Quiet
    case _ => view
  }

  function HearAll(view: Talk, ps: seq<Packet>): Talk
    decreases |ps|
  {
    if ps == [] then view else HearAll(Hear(view, ps[0]), ps[1..])
  }

  lemma {:induction false} HearAppend(view: Talk, a: seq<Packet>, b: seq<Packet>)
    ensures HearAll(view, a + b) == HearAll(HearAll(view, a), b)
    decreases |a|
  {
    if a == [] {
      assert a + b == b;
    } else {
      assert (a + b)[1..] == a[1..] + b;
      HearAppend(Hear(view, a[0]), a[1..], b);
    }
  }

  /** The floor according to what `user` heard since it joined. */
  function View(c: Channel, user: UserId): Talk
    requires user in c.joinedAt && c.joinedAt[user] <= |c.hub.Inbox(user)|
  {
    HearAll(Quiet, c.hub.Inbox(user)[c.joinedAt[user]..])
  }

  /** What a member was told of the floor: the indicator of a tenure that it joined late is always told as normal. */
  function Announced(f: Floor, user: UserId, late: bool): Talk {
    match f.takenBy
    case None => Quiet
    case Some(holder) =>
      Talking(holder, if late then Some(Normal) else if holder == user then None else Some(f.indicator))
  }

  predicate InSync(c: Channel, user: UserId) {
    user in c.members ==>
      && user in c.joinedAt
      && c.joinedAt[user] <= |c.hub.Inbox(user)|
      && View(c, user) == Announced(c.floor, user, user in c.late)
  }

  /** The view of `user` after the packets of `outs` that reach it. */
  function Told(view: Talk, outs: seq<Outgoing>, c: Channel, user: UserId): Talk
    decreases |outs|
  {
    if outs == [] then view
    else Told(if Reaches(outs[0], c.hub, c.members, user) then Hear(view, outs[0].packet) else view,
              outs[1..], c, user)
  }

  lemma {:induction false} ToldIsHeard(view: Talk, outs: seq<Outgoing>, c: Channel, user: UserId)
    ensures Told(view, outs, c, user) == HearAll(view, Received(outs, c.hub, c.members, user))
    decreases |outs|
  {
    if outs != [] {
      var rest := Received(outs[1..], c.hub, c.members, user);
      if Reaches(outs[0], c.hub, c.members, user) {
        ToldIsHeard(Hear(view, outs[0].packet), outs[1..], c, user);
        assert ([outs[0].packet] + rest)[1..] == rest;
      } else {
        ToldIsHeard(view, outs[1..], c, user);
        assert [] + rest == rest;
      }
    }
  }

  lemma ToldCons(view: Talk, o: Outgoing, rest: seq<Outgoing>, c: Channel, user: UserId)
    ensures Told(view, [o] + rest, c, user)
         == Told(if Reaches(o, c.hub, c.members, user) then Hear(view, o.packet) else view, rest, c, user)
  {
    assert ([o] + rest)[1..] == rest;
  }

  lemma DecisionIsTold(f: Floor, now: nat, view: Talk, c: Channel, user: UserId)
    requires user in c.members && user in c.hub.registered
    ensures Told(view, DecideNext(f, now).1, c, user) == Announced(DecideNext(f, now).0, user, false)
  {
    if f.queue != [] {
      var next := f.queue[0];
      var taken := ToMembers(Some(next.userId), FloorTaken(next.userId, next.indicator));
      ToldCons(view, ToUser(next.userId, FloorGranted(next.userId, FLOOR_MAX_TAKEN_MS)), [taken], c, user);
    }
  }

  /**
   * The packets of one critical section tell a registered member the new holder and its indicator when a tenure ends
   * or starts, and nothing of the floor otherwise.
   */
  lemma StepIsTold(f: Floor, now: nat, ev: FloorEvent, view: Talk, c: Channel, user: UserId)
    requires FloorInv(f) && user in c.members && user in c.hub.registered
    ensures Told(view, Step(f, now, ev).1, c, user)
         == if EndsTenure(f, now, ev) then Announced(Step(f, now, ev).0, user, false) else view
    ensures !EndsTenure(f, now, ev) ==>
              Step(f, now, ev).0.takenBy == f.takenBy && Step(f, now, ev).0.indicator == f.indicator
  {
    match ev
    case Request(requester, priority, indicator) =>
      var taken := ToMembers(Some(requester), FloorTaken(requester, indicator));
      var granted := ToSession(requester, FloorGranted(requester, FLOOR_MAX_TAKEN_MS));
      var revoke := ToUser(f.takenBy.GetOr(""), FloorRevoke("preempted"));
      ToldCons(view, revoke, [granted, taken], c, user);
      ToldCons(view, granted, [taken], c, user);
      ToldCons(if Reaches(revoke, c.hub, c.members, user) then Quiet else view, granted, [taken], c, user);
      assert [granted] + [taken] == [granted, taken];
    case Release(_) =>
      DecisionIsTold(f, now, view, c, user);
    case Ping(_) =>
    case Sweep =>
      var outs := Step(f, now, ev).1;
      if outs != [] {
        ToldCons(view, outs[0], DecideNext(f, now).1, c, user);
        DecisionIsTold(f, now, if Reaches(outs[0], c.hub, c.members, user) then Quiet else view, c, user);
      }
    case Disconnect(leaver) =>
      DecisionIsTold(Removed(f, leaver), now, view, c, user);
    case AdminClear(checked) =>
      var idle := ToMembers(None, FloorIdle);
      if checked.Some? {
        ToldCons(view, ToUser(checked.value, FloorRevoke("admin_revoke")), [idle], c, user);
      } else {
        assert [] + [idle] == [idle];
      }
  }

  lemma FloorStepInSync(c: Channel, now: nat, ev: FloorEvent, user: UserId)
    requires FloorInv(c.floor) && InSync(c, user)
    requires user in c.members ==> user in c.hub.registered
    ensures InSync(FloorStep(c, now, ev), user)
  {
    if user in c.members {
      var outs := Step(c.floor, now, ev).1;
      var inbox, mark, more := c.hub.Inbox(user), c.joinedAt[user], Received(outs, c.hub, c.members, user);
      DispatchAppends(c.hub, c.members, outs, user);
      assert (inbox + more)[mark..] == inbox[mark..] + more;
      HearAppend(Quiet, inbox[mark..], more);
      ToldIsHeard(View(c, user), outs, c, user);
      StepIsTold(c.floor, now, ev, View(c, user), c, user);
    }
  }

  lemma JoinInSync(c: Channel, joiner: UserId, user: UserId)
    requires FloorInv(c.floor) && InSync(c, user)
    ensures InSync(OnJoin(c, joiner), user)
  {
    var d := OnJoin(c, joiner);
    if d != c && user == joiner {
      var inbox := c.hub.Inbox(user);
      if c.floor.phase.Taken? {
        var p := FloorTaken(c.floor.takenBy.value, Normal);
        assert d.hub.Inbox(user)[d.joinedAt[user]..] == [p];
        assert [p][1..] == [];
        assert HearAll(Quiet, [p]) == HearAll(Talking(c.floor.takenBy.value, Some(Normal)), []);
      } else {
        assert d.hub.Inbox(user)[d.joinedAt[user]..] == [];
      }
    }
  }

  lemma ChannelStepInSync(c: Channel, now: nat, e: ChannelEvent, user: UserId)
    requires FloorInv(c.floor) && InSync(c, user)
    requires user in c.members ==> user in c.hub.registered
    ensures FloorInv(ChannelStep(c, now, e).floor) && InSync(ChannelStep(c, now, e), user)
  {
    match e
    case FloorOp(ev) =>
      StepInv(c.floor, now, ev);
      FloorStepInSync(c, now, ev, user);
    case AdminRevoke =>
      StepInv(c.floor, now, AdminClear(c.floor.takenBy));
      FloorStepInSync(c, now, AdminClear(c.floor.takenBy), user);
    case Join(joiner) => JoinInSync(c, joiner, user);
    case JoinElsewhere(_) =>
    case Leave(_) =>
    case Cleanup(leaver) =>
      if leaver in c.current {
        var d := c.(members := c.members - {leaver}, current := c.current - {leaver});
        StepInv(c.floor, now, Disconnect(leaver));
        FloorStepInSync(d, now, Disconnect(leaver), user);
      }
    case Identify(_, _) =>
    case Reap(_) =>
  }

  lemma {:induction false} RunInSync(capacity: nat, hub: Hub, run: seq<TimedEvent>, user: UserId, i: nat)
    requires i <= |run|
    requires forall j :: 0 <= j < i ==>
               var c := ChannelAt(NewChannel(capacity, hub), run, j);
               user in c.members ==> user in c.hub.registered
    ensures FloorInv(ChannelAt(NewChannel(capacity, hub), run, i).floor)
    ensures InSync(ChannelAt(NewChannel(capacity, hub), run, i), user)
  {
    hide ChannelStep;
    if i > 0 {
      RunInSync(capacity, hub, run, user, i - 1);
      ChannelStepInSync(ChannelAt(NewChannel(capacity, hub), run, i - 1), run[i - 1].at, run[i - 1].event, user);
    }
  }

  /**
   * In every run in which `user` is registered whenever it is a member, its view of the floor, made of
   * nothing but the packets it received since it joined, names exactly the holder.
   */
  lemma ViewIsHolder(capacity: nat, hub: Hub, run: seq<TimedEvent>, user: UserId)
    requires forall j :: 0 <= j < |run| ==>
               var c := ChannelAt(NewChannel(capacity, hub), run, j);
               user in c.members ==> user in c.hub.registered
    ensures var c := ChannelAt(NewChannel(capacity, hub), run, |run|);
            user in c.members ==>
              && user in c.joinedAt && c.joinedAt[user] <= |c.hub.Inbox(user)|
              && View(c, user).Holder() == c.floor.takenBy
  {
    RunInSync(capacity, hub, run, user, |run|);
  }

  /**
   * In the same runs the indicator that such a member was told of another's talk burst is the right one if and only
   * if it did not join during that tenure or the burst is a normal one.
   */
  lemma IndicatorIsRight(capacity: nat, hub: Hub, run: seq<TimedEvent>, user: UserId)
    requires forall j :: 0 <= j < |run| ==>
               var c := ChannelAt(NewChannel(capacity, hub), run, j);
               user in c.members ==> user in c.hub.registered
    ensures var c := ChannelAt(NewChannel(capacity, hub), run, |run|);
            user in c.members && c.floor.takenBy.Some? && c.floor.takenBy != Some(user) ==>
              && user in c.joinedAt && c.joinedAt[user] <= |c.hub.Inbox(user)| && View(c, user).Talking?
              && (View(c, user).indicator == Some(c.floor.indicator)
                  <==> user !in c.late || c.floor.indicator == Normal)
  {
    RunInSync(capacity, hub, run, user, |run|);
  }

  /** A member that joins during an emergency call is told of a normal one. */
  lemma LateJoinerToldNormal(c: Channel, now: nat, speaker: UserId, joiner: UserId)
    requires c.floor.phase.Idle? && joiner !in c.members && |c.members| < c.capacity
    ensures var d := ChannelStep(ChannelStep(c, now, FloorOp(Request(speaker, 100, Emergency))), now, Join(joiner));
            && joiner in d.members && joiner in d.joinedAt && d.joinedAt[joiner] <= |d.hub.Inbox(joiner)|
            && d.floor.indicator == Emergency && View(d, joiner) == Talking(speaker, Some(Normal))
  {
    hide Dispatch;
    var b := ChannelStep(c, now, FloorOp(Request(speaker, 100, Emergency)));
    var d := ChannelStep(b, now, Join(joiner));
    var p := FloorTaken(speaker, Normal);
    SentInbox(b.hub, {joiner}, p, joiner);
    assert d.hub.Inbox(joiner)[d.joinedAt[joiner]..] == [p];
    assert [p][1..] == [];
    assert HearAll(Quiet, [p]) == HearAll(Talking(speaker, Some(Normal)), []);
  }

  // ------------------------------------------------------------------------
  // What a closing session leaves behind
  // ------------------------------------------------------------------------

  predicate OnFloor(f: Floor, user: UserId) {
    f.takenBy == Some(user) || exists i :: 0 <= i < |f.queue| && f.queue[i].userId == user
  }

  lemma DisconnectFreesFloor(f: Floor, now: nat, user: UserId)
    requires FloorInv(f)
    ensures !OnFloor(Step(f, now, Disconnect(user)).0, user)
  {
    RetainMembers(f.queue, user);
    var q := Retain(f.queue, user);
    assert forall i :: 0 <= i < |q| ==> q[i] in q;
  }

  /**
   * The end of a session takes its user off the members of the channel, off the floor and out of the queue if and
   * only if the channel is the session's current one or the user was not there.
   */
  lemma CleanupFreesChannel(c: Channel, now: nat, user: UserId)
    requires FloorInv(c.floor)
    ensures var d := OnCleanup(c, now, user);
            && user !in d.hub.registered
            && (!OnFloor(d.floor, user) <==> user in c.current || !OnFloor(c.floor, user))
            && (user !in d.members <==> user in c.current || user !in c.members)
  {
    DisconnectFreesFloor(c.floor, now, user);
    DispatchAppends(c.hub, c.members - {user},
                    Step(c.floor, now, Disconnect(user)).1, user);
  }

  /** A user that speaks in a channel and leaves it is still the holder when its session ends. */
  lemma LeaverKeepsFloor(c: Channel, user: UserId, t: seq<nat>)
    requires |t| == 4 && c.floor.phase.Idle? && user !in c.members && |c.members| < c.capacity
    ensures var joined := ChannelStep(c, t[0], Join(user));
            var speaking := ChannelStep(joined, t[1], FloorOp(Request(user, 100, Normal)));
            var left := ChannelStep(speaking, t[2], Leave(user));
            var ended := ChannelStep(left, t[3], Cleanup(user));
            OnFloor(ended.floor, user) && user !in ended.members && user !in ended.hub.registered
  {
    hide Dispatch;
  }

  /** A run from a new channel in which the end of a session does not free the floor. */
  lemma LeaverKeepsFloorInRun(user: UserId)
    ensures var run := [TimedEvent(0, Identify(user, 100)), TimedEvent(1, Join(user)),
                        TimedEvent(2, FloorOp(Request(user, 100, Normal))), TimedEvent(3, Leave(user)),
                        TimedEvent(4, Cleanup(user))];
            OnFloor(ChannelAt(NewChannel(10, Hub(map[], map[])), run, 5).floor, user)
  {
    hide ChannelStep, OnFloor;
    var n := NewChannel(10, Hub(map[], map[]));
    var run := [TimedEvent(0, Identify(user, 100)), TimedEvent(1, Join(user)),
                TimedEvent(2, FloorOp(Request(user, 100, Normal))), TimedEvent(3, Leave(user)),
                TimedEvent(4, Cleanup(user))];
    var first := ChannelAt(n, run, 1);
    assert ChannelAt(n, run, 0) == n;
    assert first == ChannelStep(n, 0, Identify(user, 100));
    IdentifyKeeps(n, user);
    LeaverKeepsFloor(first, user, [1, 2, 3, 4]);
    assert ChannelAt(n, run, 3) == ChannelStep(ChannelAt(n, run, 2), 2, run[2].event);
  }

  lemma IdentifyKeeps(c: Channel, user: UserId)
    ensures var d := ChannelStep(c, 0, Identify(user, 100));
            d.floor == c.floor && d.members == c.members && d.capacity == c.capacity
  {
  }

  /** A run in which the session has moved on to another channel without leaving this one. */
  lemma MoverStaysMember(user: UserId)
    ensures var run := [TimedEvent(0, Identify(user, 100)), TimedEvent(1, Join(user)),
                        TimedEvent(2, JoinElsewhere(user)), TimedEvent(3, Cleanup(user))];
            var c := ChannelAt(NewChannel(10, Hub(map[], map[])), run, 4);
            user in c.members && user !in c.hub.registered
  {
    var n := NewChannel(10, Hub(map[], map[]));
    var run := [TimedEvent(0, Identify(user, 100)), TimedEvent(1, Join(user)),
                TimedEvent(2, JoinElsewhere(user)), TimedEvent(3, Cleanup(user))];
    assert ChannelAt(n, run, 0) == n && |n.members| == 0;
    assert ChannelAt(n, run, 1) == ChannelStep(n, 0, run[0].event);
    assert ChannelAt(n, run, 2) == OnJoin(ChannelAt(n, run, 1), user);
    assert ChannelAt(n, run, 2).members == {user};
    assert ChannelAt(n, run, 3).members == {user} && user !in ChannelAt(n, run, 3).current;
  }
}
