/**
 * The floor of one channel as a transition system: src/protocol/floor.rs and the floor part of
 * src/http/admin.rs, one event per mutex critical section.
 *
 * `AdminClear` is the second critical section of the admin revoke. It may follow any other event, so
 * runs include those in which events slip in between the admin check and the clear.
 */
module FloorMachine {
  import opened Basics
  import opened FloorControls
  import opened QueueOrder

  datatype Packet =
    | FloorGranted(user: UserId, duration: nat)
    | FloorTaken(user: UserId, indicator: FloorIndicator)
    | FloorIdle
    | FloorRevoke(cause: string)
    | FloorQueuePosInfo(position: nat, size: nat)
    | FloorPong

  /** A packet with its addressee: the requesting session, one registered user, or the members but one. */
  datatype Outgoing =
    | ToSession(user: UserId, packet: Packet)
    | ToUser(user: UserId, packet: Packet)
    | ToMembers(exclude: Option<UserId>, packet: Packet)

  datatype FloorEvent =
    | Request(user: UserId, priority: byte, indicator: FloorIndicator)
    | Release(user: UserId)
    | Ping(user: UserId)
    | Sweep
    | Disconnect(user: UserId)
    | AdminClear(checked: Option<UserId>)

  // ------------------------------------------------------------------------
  // Handlers
  // ------------------------------------------------------------------------

  function DecideNext(f: Floor, now: nat): (Floor, seq<Outgoing>) {
    if f.queue != [] then
      var next := f.queue[0];
      (Granted(f.(queue := f.queue[1..]), now, next.userId, next.priority, next.indicator),
       [ToUser(next.userId, FloorGranted(next.userId, FLOOR_MAX_TAKEN_MS)),
        ToMembers(Some(next.userId), FloorTaken(next.userId, next.indicator))])
    else
      (Cleared(f), [ToMembers(None, FloorIdle)])
  }

  function OnRequest(f: Floor, now: nat, user: UserId, priority: byte, indicator: FloorIndicator)
    : (Floor, seq<Outgoing>)
  {
    var announce := [ToSession(user, FloorGranted(user, FLOOR_MAX_TAKEN_MS)),
                     ToMembers(Some(user), FloorTaken(user, indicator))];
    if f.phase.Idle? then
      (Granted(f, now, user, priority, indicator), announce)
    else if CanPreempt(f, priority, indicator) then
      (Granted(f, now, user, priority, indicator),
       [ToUser(f.takenBy.GetOr(""), FloorRevoke("preempted"))] + announce)
    else
      var g := Enqueued(f, now, user, priority, indicator);
      var position := match Position(g.queue, user) case Some(i) => i + 1 case None => 1;
      (g, [ToSession(user, FloorQueuePosInfo(position, |g.queue|))])
  }

  function OnRelease(f: Floor, now: nat, user: UserId): (Floor, seq<Outgoing>) {
    if f.takenBy != Some(user) then (Removed(f, user), [])
    else DecideNext(f, now)
  }

  function OnPing(f: Floor, now: nat, user: UserId): (Floor, seq<Outgoing>) {
    if f.takenBy != Some(user) then (f, [])
    else (f.(lastPingAt := now), [ToSession(user, FloorPong)])
  }

  /** The timeout check of the reaper for this channel. */
  function OnSweep(f: Floor, now: nat): (Floor, seq<Outgoing>) {
    if !f.phase.Taken? then (f, [])
    else if MaxTakenExceeded(f, now) || PingTimedOut(f, now) then
      var cause := if MaxTakenExceeded(f, now) then "max_duration" else "ping_timeout";
      var (g, outs) := DecideNext(f, now);
      (g, [ToUser(f.takenBy.GetOr(""), FloorRevoke(cause))] + outs)
    else (f, [])
  }

  function OnDisconnect(f: Floor, now: nat, user: UserId): (Floor, seq<Outgoing>) {
    var g := Removed(f, user);
    if g.takenBy == Some(user) then DecideNext(g, now) else (g, [])
  }

  function OnAdminClear(f: Floor, checked: Option<UserId>): (Floor, seq<Outgoing>) {
    (Cleared(f.(queue := [])),
     (match checked case Some(h) => [ToUser(h, FloorRevoke("admin_revoke"))] case None => [])
     + [ToMembers(None, FloorIdle)])
  }

  function Step(f: Floor, now: nat, ev: FloorEvent): (Floor, seq<Outgoing>) {
    match ev
    case Request(user, priority, indicator) => OnRequest(f, now, user, priority, indicator)
    case Release(user) => OnRelease(f, now, user)
    case Ping(user) => OnPing(f, now, user)
    case Sweep => OnSweep(f, now)
    case Disconnect(user) => OnDisconnect(f, now, user)
    case AdminClear(checked) => OnAdminClear(f, checked)
  }

  // ------------------------------------------------------------------------
  // Runs
  // ------------------------------------------------------------------------

  datatype Timed = Timed(at: nat, event: FloorEvent)

  function StateAt(f: Floor, run: seq<Timed>, i: nat): Floor
    requires i <= |run|
  {
    if i == 0 then f
    else Step(StateAt(f, run, i - 1), run[i - 1].at, run[i - 1].event).0
  }

  function OutputAt(f: Floor, run: seq<Timed>, i: nat): seq<Outgoing>
    requires i < |run|
  {
    Step(StateAt(f, run, i), run[i].at, run[i].event).1
  }

  // ------------------------------------------------------------------------
  // The joint invariant
  // ------------------------------------------------------------------------

  predicate NoEmergencyWaits(q: seq<QueueEntry>) {
    forall i :: 0 <= i < |q| ==> !q[i].indicator.Emergency?
  }

  /** Holder, time and phase agree, nobody waits on a free floor, and the queue is in shape. */
  predicate FloorInv(f: Floor) {
    && (f.phase.Taken? <==> f.takenBy.Some?)
    && (f.phase.Taken? <==> f.takenAt.Some?)
    && (f.phase.Idle? ==> f.queue == [])
    && Sorted(f.queue)
    && OnePerUser(f.queue)
    && NoEmergencyWaits(f.queue)
  }

  lemma RetainInv(f: Floor, user: UserId)
    requires FloorInv(f)
    ensures FloorInv(Removed(f, user))
  {
    RetainSorted(f.queue, user);
    RetainOnePerUser(f.queue, user);
    RetainMembers(f.queue, user);
    forall i | 0 <= i < |Retain(f.queue, user)| ensures !Retain(f.queue, user)[i].indicator.Emergency? {
      assert Retain(f.queue, user)[i] in f.queue;
    }
  }

  lemma EnqueueInv(f: Floor, now: nat, user: UserId, priority: byte, indicator: FloorIndicator)
    requires FloorInv(f) && f.phase.Taken? && !indicator.Emergency?
    ensures FloorInv(Enqueued(f, now, user, priority, indicator))
  {
    var q, e := Retain(f.queue, user), QueueEntry(user, priority, indicator, now);
    RetainInv(f, user);
    RetainMembers(f.queue, user);
    InsertSorted(q, e);
    InsertOnePerUser(q, e);
    InsertMembers(q, e);
    forall i | 0 <= i < |Insert(q, e)| ensures !Insert(q, e)[i].indicator.Emergency? {
      assert Insert(q, e)[i] in q || Insert(q, e)[i] == e;
    }
  }

  lemma StepInv(f: Floor, now: nat, ev: FloorEvent)
    requires FloorInv(f)
    ensures FloorInv(Step(f, now, ev).0)
  {
    match ev
    case Request(user, priority, indicator) =>
      if f.phase.Taken? && !CanPreempt(f, priority, indicator) {
        EnqueueInv(f, now, user, priority, indicator);
      }
    case Release(user) => RetainInv(f, user);
    case Ping(_) =>
    case Sweep =>
    case Disconnect(user) => RetainInv(f, user);
    case AdminClear(_) =>
  }

  /** The joint invariant holds in every state of every run. */
  lemma {:induction false} RunInv(f: Floor, run: seq<Timed>, i: nat)
    requires FloorInv(f) && i <= |run|
    ensures FloorInv(StateAt(f, run, i))
  {
    if i > 0 {
      RunInv(f, run, i - 1);
      StepInv(StateAt(f, run, i - 1), run[i - 1].at, run[i - 1].event);
    }
  }

  // ------------------------------------------------------------------------
  // The queue of a run is the sorted log of that run
  // ------------------------------------------------------------------------

  /** The event runs `decide_next`. */
  predicate Decides(f: Floor, now: nat, ev: FloorEvent) {
    match ev
    case Release(user) => f.takenBy == Some(user)
    case Sweep => f.phase.Taken? && (MaxTakenExceeded(f, now) || PingTimedOut(f, now))
    case Disconnect(user) => f.takenBy == Some(user)
    case _ => false
  }

  function QueueOps(f: Floor, now: nat, ev: FloorEvent): seq<QueueOp> {
    match ev
    case Request(user, priority, indicator) =>
      if f.phase.Idle? || CanPreempt(f, priority, indicator) then []
      else [Enqueue(QueueEntry(user, priority, indicator, now))]
    case Release(user) => if Decides(f, now, ev) then [Dequeue] else [Remove(user)]
    case Ping(_) => []
    case Sweep => if Decides(f, now, ev) then [Dequeue] else []
    case Disconnect(user) => if Decides(f, now, ev) then [Remove(user), Dequeue] else [Remove(user)]
    case AdminClear(_) => [Clear]
  }

  function RunOps(f: Floor, run: seq<Timed>, i: nat): seq<QueueOp>
    requires i <= |run|
  {
    if i == 0 then []
    else RunOps(f, run, i - 1) + QueueOps(StateAt(f, run, i - 1), run[i - 1].at, run[i - 1].event)
  }

  function ApplyAll(q: seq<QueueEntry>, ops: seq<QueueOp>): seq<QueueEntry>
    decreases |ops|
  {
    if ops == [] then q else ApplyAll(Apply(q, ops[0]), ops[1..])
  }

  lemma {:induction false} QueueAfterMore(before: seq<QueueOp>, ops: seq<QueueOp>)
    ensures QueueAfter(before + ops) == ApplyAll(QueueAfter(before), ops)
    decreases |ops|
  {
    if ops == [] {
      assert before + ops == before;
    } else {
      assert before + ops == (before + [ops[0]]) + ops[1..];
      assert (before + [ops[0]])[..|before|] == before;
      QueueAfterMore(before + [ops[0]], ops[1..]);
    }
  }

  lemma ApplyOne(q: seq<QueueEntry>, op: QueueOp)
    ensures ApplyAll(q, [op]) == Apply(q, op)
  {
    assert [op][1..] == [];
  }

  lemma StepQueue(f: Floor, now: nat, ev: FloorEvent)
    ensures Step(f, now, ev).0.queue == ApplyAll(f.queue, QueueOps(f, now, ev))
  {
    if ev.Disconnect? && Decides(f, now, ev) {
      var user := ev.user;
      assert [Remove(user), Dequeue][1..] == [Dequeue];
      ApplyOne(Retain(f.queue, user), Dequeue);
    } else {
      var ops := QueueOps(f, now, ev);
      if ops != [] {
        assert ops == [ops[0]];
        ApplyOne(f.queue, ops[0]);
      }
    }
  }

  lemma {:induction false} RunQueue(run: seq<Timed>, i: nat)
    requires i <= |run|
    ensures StateAt(NEW_FLOOR, run, i).queue == QueueAfter(RunOps(NEW_FLOOR, run, i))
  {
    hide Step, QueueOps, ApplyAll;
    if i > 0 {
      var f, t := StateAt(NEW_FLOOR, run, i - 1), run[i - 1];
      RunQueue(run, i - 1);
      StepQueue(f, t.at, t.event);
      QueueAfterMore(RunOps(NEW_FLOOR, run, i - 1), QueueOps(f, t.at, t.event));
    }
  }

  /**
   * In every state of every run the queue is the bucket sort of the log: highest priority first, and the
   * latest request of each waiting user in arrival order inside a priority.
   */
  lemma QueueIsPriorityFifo(run: seq<Timed>, i: nat)
    requires i <= |run|
    ensures StateAt(NEW_FLOOR, run, i).queue == SortedLog(RunOps(NEW_FLOOR, run, i))
  {
    RunQueue(run, i);
    QueueIsSortedLog(RunOps(NEW_FLOOR, run, i));
  }

  /** The position announced to a queued user is one more than the number of waiting users it does not outrank. */
  function NotOutranked(q: seq<QueueEntry>, priority: int): nat {
    if q == [] then 0
    else (if q[0].priority >= priority then 1 else 0) + NotOutranked(q[1..], priority)
  }

  lemma {:induction false} NotOutrankedSplits(q: seq<QueueEntry>, priority: int)
    requires Sorted(q)
    ensures NotOutranked(q, priority) <= |q|
    ensures forall i :: 0 <= i < NotOutranked(q, priority) ==> q[i].priority >= priority
    ensures forall i :: NotOutranked(q, priority) <= i < |q| ==> q[i].priority < priority
  {
    if q != [] {
      NotOutrankedSplits(q[1..], priority);
    }
  }

  lemma FirstPosition(q: seq<QueueEntry>, user: UserId, n: nat)
    requires n < |q| && q[n].userId == user
    requires forall i :: 0 <= i < n ==> q[i].userId != user
    ensures Position(q, user) == Some(n)
  {
    hide Position;
    var p := Position(q, user);
    assert p.Some? && p.value == n;
  }

  lemma InsertPosition(q: seq<QueueEntry>, e: QueueEntry)
    requires Sorted(q) && forall x :: x in q ==> x.userId != e.userId
    ensures Position(Insert(q, e), e.userId) == Some(NotOutranked(q, e.priority))
  {
    hide Position, Insert, NotOutranked;
    var n := NotOutranked(q, e.priority);
    NotOutrankedSplits(q, e.priority);
    InsertAt(q, e, n);
    forall i | 0 <= i < n ensures Insert(q, e)[i].userId != e.userId {
      assert Insert(q, e)[i] == q[i] && q[i] in q;
    }
    FirstPosition(Insert(q, e), e.userId, n);
  }

  lemma QueuedAt(f: Floor, now: nat, user: UserId, priority: byte, indicator: FloorIndicator)
    requires Sorted(f.queue)
    ensures var others, g := Retain(f.queue, user), Enqueued(f, now, user, priority, indicator);
            Position(g.queue, user) == Some(NotOutranked(others, priority)) && |g.queue| == |others| + 1
  {
    var others, e := Retain(f.queue, user), QueueEntry(user, priority, indicator, now);
    RetainMembers(f.queue, user);
    RetainSorted(f.queue, user);
    InsertPosition(others, e);
    InsertMembers(others, e);
    hide Insert, Retain, Position, NotOutranked;
    assert |Insert(others, e)| == |multiset(Insert(others, e))| == |others| + 1;
  }

  lemma AnnouncedPosition(f: Floor, now: nat, user: UserId, priority: byte, indicator: FloorIndicator)
    requires FloorInv(f) && f.phase.Taken? && !CanPreempt(f, priority, indicator)
    ensures Step(f, now, Request(user, priority, indicator)).1 ==
            [ToSession(user, FloorQueuePosInfo(NotOutranked(Retain(f.queue, user), priority) + 1,
                                               |Retain(f.queue, user)| + 1))]
  {
    QueuedAt(f, now, user, priority, indicator);
    hide Enqueued, Retain, Position, NotOutranked;
  }

  // ------------------------------------------------------------------------
  // Who outranks whom
  // ------------------------------------------------------------------------

  /** No waiting entry outranks the holder. */
  predicate Ceiling(f: Floor) {
    forall i :: 0 <= i < |f.queue| ==> f.queue[i].priority <= f.priority
  }

  predicate OutrankedWaiter(f: Floor, priority: byte) {
    exists i :: 0 <= i < |f.queue| && f.queue[i].priority > priority
  }

  /** From a state under the ceiling, exactly an Emergency preemption below a waiting entry breaks it. */
  lemma CeilingStep(f: Floor, now: nat, ev: FloorEvent)
    requires FloorInv(f) && Ceiling(f)
    ensures Ceiling(Step(f, now, ev).0) <==>
            !(f.phase.Taken? && ev.Request? && ev.indicator.Emergency? && OutrankedWaiter(f, ev.priority))
  {
    match ev
    case Request(user, priority, indicator) =>
      if f.phase.Taken? && !CanPreempt(f, priority, indicator) {
        var q, e := Retain(f.queue, user), QueueEntry(user, priority, indicator, now);
        RetainMembers(f.queue, user);
        InsertMembers(q, e);
        forall i | 0 <= i < |Insert(q, e)| ensures Insert(q, e)[i].priority <= f.priority {
          assert Insert(q, e)[i] in q || Insert(q, e)[i] == e;
        }
      }
    case Release(user) => RetainUnderCeiling(f, user);
    case Ping(_) =>
    case Sweep =>
    case Disconnect(user) => RetainUnderCeiling(f, user); RetainInv(f, user);
    case AdminClear(_) =>
  }

  lemma RetainUnderCeiling(f: Floor, user: UserId)
    requires Ceiling(f)
    ensures Ceiling(Removed(f, user))
  {
    RetainMembers(f.queue, user);
    forall i | 0 <= i < |Retain(f.queue, user)| ensures Retain(f.queue, user)[i].priority <= f.priority {
      assert Retain(f.queue, user)[i] in f.queue;
    }
  }

  /** A queue grant or an idle floor: the points at which the ceiling is restored whatever went before. */
  predicate Restores(f: Floor, now: nat, ev: FloorEvent) {
    Decides(f, now, ev) || Step(f, now, ev).0.phase.Idle?
  }

  lemma DecideRestoresCeiling(f: Floor, now: nat, ev: FloorEvent)
    requires FloorInv(f) && Restores(f, now, ev)
    ensures Ceiling(Step(f, now, ev).0)
  {
    StepInv(f, now, ev);
    if ev.Disconnect? {
      RetainInv(f, ev.user);
    }
  }

  /** The event is an Emergency request below the priority of the holder it preempts. */
  predicate LowEmergency(f: Floor, ev: FloorEvent) {
    f.phase.Taken? && ev.Request? && ev.indicator.Emergency? && ev.priority < f.priority
  }

  lemma BrokenCeiling(f: Floor, now: nat, ev: FloorEvent)
    requires FloorInv(f) && Ceiling(f) && !Ceiling(Step(f, now, ev).0)
    ensures LowEmergency(f, ev)
  {
    CeilingStep(f, now, ev);
  }

  /** Event `i` of the run is a low Emergency, and nothing between it and state `n` restores the ceiling. */
  predicate UnrestoredEmergency(f: Floor, run: seq<Timed>, i: nat, n: nat)
    requires i < n <= |run|
  {
    && LowEmergency(StateAt(f, run, i), run[i].event)
    && forall j :: i < j < n ==> !Restores(StateAt(f, run, j), run[j].at, run[j].event)
  }

  /** A waiting entry outranks the holder only after an Emergency below the holder it displaced. */
  lemma {:induction false} InversionNeedsLowEmergency(f: Floor, run: seq<Timed>, n: nat) returns (i: nat)
    requires FloorInv(f) && Ceiling(f) && n <= |run|
    requires !Ceiling(StateAt(f, run, n))
    ensures i < n && UnrestoredEmergency(f, run, i, n)
  {
    hide Step, Ceiling, LowEmergency, Restores, FloorInv;
    RunInv(f, run, n - 1);
    var g := StateAt(f, run, n - 1);
    if Ceiling(g) {
      BrokenCeiling(g, run[n - 1].at, run[n - 1].event);
      i := n - 1;
    } else {
      i := InversionNeedsLowEmergency(f, run, n - 1);
      if Restores(g, run[n - 1].at, run[n - 1].event) {
        DecideRestoresCeiling(g, run[n - 1].at, run[n - 1].event);
      }
    }
  }

  /** When every Emergency request carries the top priority, no waiting entry ever outranks the holder. */
  lemma TopEmergenciesKeepCeiling(run: seq<Timed>, n: nat)
    requires n <= |run|
    requires forall k :: 0 <= k < |run| && run[k].event.Request? && run[k].event.indicator.Emergency?
                     ==> run[k].event.priority == 255
    ensures Ceiling(StateAt(NEW_FLOOR, run, n))
  {
    if !Ceiling(StateAt(NEW_FLOOR, run, n)) {
      var i := InversionNeedsLowEmergency(NEW_FLOOR, run, n);
      assert false;
    }
  }

  /** Without that discipline the ceiling does fall. */
  lemma LowEmergencyInverts(a: UserId, b: UserId, c: UserId)
    requires a != b && b != c && a != c
    ensures var run := [Timed(0, Request(a, 100, Normal)), Timed(0, Request(b, 50, Normal)),
                        Timed(0, Request(c, 1, Emergency))];
            !Ceiling(StateAt(NEW_FLOOR, run, 3))
  {
    var run := [Timed(0, Request(a, 100, Normal)), Timed(0, Request(b, 50, Normal)),
                Timed(0, Request(c, 1, Emergency))];
    var f1 := Granted(NEW_FLOOR, 0, a, 100, Normal);
    assert StateAt(NEW_FLOOR, run, 0) == NEW_FLOOR && StateAt(NEW_FLOOR, run, 1) == f1;
    var entry := QueueEntry(b, 50, Normal, 0);
    assert Insert(Retain([], b), entry) == [entry];
    assert StateAt(NEW_FLOOR, run, 2) == f1.(queue := [entry]);
    var f3 := StateAt(NEW_FLOOR, run, 3);
    assert f3.queue == [entry] && f3.queue[0].priority > f3.priority;
  }

  // ------------------------------------------------------------------------
  // Grants and the holder
  // ------------------------------------------------------------------------

  /** `user` is told that the floor is its own. */
  predicate GrantSent(outs: seq<Outgoing>, user: UserId) {
    exists i :: 0 <= i < |outs| && !outs[i].ToMembers? && outs[i].user == user
                && outs[i].packet == FloorGranted(user, FLOOR_MAX_TAKEN_MS)
  }

  /** A new holder is told so in the step that makes it the holder, and only the new holder is. */
  lemma GrantAnnounced(f: Floor, now: nat, ev: FloorEvent, user: UserId)
    ensures var (g, outs) := Step(f, now, ev);
            && (g.takenBy == Some(user) && f.takenBy != Some(user) ==> GrantSent(outs, user))
            && (GrantSent(outs, user) ==> g.takenBy == Some(user) && g.takenAt == Some(now))
  {
    var (g, outs) := Step(f, now, ev);
    if g.takenBy == Some(user) && f.takenBy != Some(user) {
      var k := if ev.Request? then (if f.phase.Idle? then 0 else 1) else if ev.Sweep? then 1 else 0;
      assert !outs[k].ToMembers? && outs[k].user == user && outs[k].packet == FloorGranted(user, FLOOR_MAX_TAKEN_MS);
    }
  }

  /** The floor gate of the media relay in a PTT channel. */
  predicate MaySpeak(f: Floor, user: UserId) {
    f.phase.Taken? && f.takenBy == Some(user)
  }

  lemma {:induction false} HoldersAreSeparatedByGrant(f: Floor, run: seq<Timed>, i: nat, j: nat, v: UserId)
    returns (k: nat)
    requires i <= j <= |run|
    requires StateAt(f, run, i).takenBy != Some(v) && StateAt(f, run, j).takenBy == Some(v)
    ensures i <= k < j && GrantSent(OutputAt(f, run, k), v)
  {
    if StateAt(f, run, j - 1).takenBy == Some(v) {
      k := HoldersAreSeparatedByGrant(f, run, i, j - 1, v);
    } else {
      k := j - 1;
      GrantAnnounced(StateAt(f, run, k), run[k].at, run[k].event, v);
    }
  }

  /** Between media let through from `u` and later media from another user, that one is granted the floor. */
  lemma SpeakersAreSeparatedByGrant(f: Floor, run: seq<Timed>, i: nat, j: nat, u: UserId, v: UserId)
    requires i <= j <= |run| && u != v
    requires MaySpeak(StateAt(f, run, i), u) && MaySpeak(StateAt(f, run, j), v)
    ensures exists k :: i <= k < j && GrantSent(OutputAt(f, run, k), v)
  {
    var k := HoldersAreSeparatedByGrant(f, run, i, j, v);
  }
}
