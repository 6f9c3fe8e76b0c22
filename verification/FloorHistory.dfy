/**
 * The floor told from the events of a run: which request the holder speaks for, which requests preempt it, how long
 * its pings keep it speaking, and what ends its tenure.
 */
module FloorHistory {
  import opened Basics
  import opened FloorControls
  import opened FloorMachine
  import opened FloorTiming

  /** State `i` belongs to the tenure of `user` that began with step `k`. */
  predicate Tenure(f: Floor, run: seq<Timed>, k: nat, i: nat, user: UserId) {
    && k < i <= |run|
    && GrantSent(OutputAt(f, run, k), user)
    && (forall m :: k < m < i ==> !GrantSent(OutputAt(f, run, m), user))
    && (forall m :: k < m <= i ==> StateAt(f, run, m).takenBy == Some(user))
  }

  // ------------------------------------------------------------------------
  // The request behind a grant
  // ------------------------------------------------------------------------

  /** The requester is told a place in the queue, and nobody anything else. */
  predicate PlaceSent(outs: seq<Outgoing>, user: UserId) {
    |outs| == 1 && outs[0].ToSession? && outs[0].user == user && outs[0].packet.FloorQueuePosInfo?
  }

  /** Step `i` is a request of `user` that was told its place. */
  predicate Queues(run: seq<Timed>, i: nat, user: UserId)
    requires i < |run|
  {
    run[i].event.Request? && run[i].event.user == user && PlaceSent(OutputAt(NEW_FLOOR, run, i), user)
  }

  /** Request `r` is the latest of its user before state `i` that was told its place, and `e` is its entry. */
  predicate WaitsSince(run: seq<Timed>, r: nat, i: nat, e: QueueEntry) {
    && r < i <= |run| && run[r] == Timed(e.queuedAt, Request(e.userId, e.priority, e.indicator))
    && Queues(run, r, e.userId)
    && forall m :: r < m < i ==> !Queues(run, m, e.userId)
  }

  lemma EnqueuedMembers(f: Floor, now: nat, user: UserId, priority: byte, indicator: FloorIndicator, e: QueueEntry)
    ensures e in Enqueued(f, now, user, priority, indicator).queue
            <==> if e.userId == user then e == QueueEntry(user, priority, indicator, now) else e in f.queue
  {
    RetainMembers(f.queue, user);
    InsertMembers(Retain(f.queue, user), QueueEntry(user, priority, indicator, now));
  }

  /** What one step does to the entries of a user: a request that is told its place replaces them, others add none. */
  lemma StepMembers(f: Floor, now: nat, ev: FloorEvent, e: QueueEntry)
    requires e in Step(f, now, ev).0.queue
    ensures if ev.Request? && ev.user == e.userId && PlaceSent(Step(f, now, ev).1, ev.user)
            then e == QueueEntry(ev.user, ev.priority, ev.indicator, now) else e in f.queue
  {
    match ev
    case Request(user, priority, indicator) => EnqueuedMembers(f, now, user, priority, indicator, e);
    case Release(user) => RetainMembers(f.queue, user);
    case Disconnect(user) => RetainMembers(f.queue, user);
    case _ =>
  }

  /** Whoever waits in a state of a run asked for exactly that, and was told its place. */
  lemma {:induction false} EntryIsRequest(run: seq<Timed>, i: nat, e: QueueEntry) returns (r: nat)
    requires i <= |run| && e in StateAt(NEW_FLOOR, run, i).queue
    ensures WaitsSince(run, r, i, e)
  {
    hide Step, PlaceSent;
    StepMembers(StateAt(NEW_FLOOR, run, i - 1), run[i - 1].at, run[i - 1].event, e);
    if Queues(run, i - 1, e.userId) {
      r := i - 1;
    } else {
      r := EntryIsRequest(run, i - 1, e);
    }
  }

  /** Request `r` waits at the head of the queue when step `k` decides. */
  predicate ServedFromQueue(run: seq<Timed>, r: nat, k: nat) {
    && r < k < |run| && run[r].event.Request?
    && var f, e := StateAt(NEW_FLOOR, run, k), run[r].event;
    && Decides(f, run[k].at, run[k].event)
    && var q := Decided(f, run[k].event).queue;
    && q != [] && q[0] == QueueEntry(e.user, e.priority, e.indicator, run[r].at)
    && WaitsSince(run, r, k, q[0])
  }

  /** Step `k` grants the floor for request `r`: it is that request, or serves it from the queue. */
  predicate GrantFor(run: seq<Timed>, r: nat, k: nat) {
    && r <= k < |run| && run[r].event.Request?
    && GrantSent(OutputAt(NEW_FLOOR, run, k), run[r].event.user)
    && (r < k ==> ServedFromQueue(run, r, k))
  }

  /** The floor is held for a request with that user, priority and indicator since `at`. */
  predicate HeldAs(f: Floor, at: nat, user: UserId, priority: byte, indicator: FloorIndicator) {
    && f.phase.Taken? && f.takenBy == Some(user) && f.takenAt == Some(at)
    && f.priority == priority && f.indicator == indicator
  }

  lemma GrantStep(f: Floor, now: nat, ev: FloorEvent, user: UserId)
    requires GrantSent(Step(f, now, ev).1, user)
    ensures ev.Request? ==> ev.user == user && HeldAs(Step(f, now, ev).0, now, user, ev.priority, ev.indicator)
    ensures !ev.Request? ==>
              && Decides(f, now, ev) && Decided(f, ev).queue != []
              && var e := Decided(f, ev).queue[0];
              e.userId == user && HeldAs(Step(f, now, ev).0, now, user, e.priority, e.indicator)
  {
  }

  /** Every grant of a run is for a request of the run. */
  lemma GrantHasRequest(run: seq<Timed>, k: nat, user: UserId) returns (r: nat)
    requires k < |run| && GrantSent(OutputAt(NEW_FLOOR, run, k), user)
    ensures GrantFor(run, r, k) && run[r].event.user == user
  {
    var f, t := StateAt(NEW_FLOOR, run, k), run[k];
    hide Step, PlaceSent, GrantSent, Decides;
    GrantStep(f, t.at, t.event, user);
    if t.event.Request? {
      r := k;
    } else {
      var e := Decided(f, t.event).queue[0];
      if t.event.Disconnect? {
        RetainMembers(f.queue, t.event.user);
      }
      r := EntryIsRequest(run, k, e);
    }
  }

  /** Without a grant to it a user that goes on holding the floor holds it as before. */
  lemma HoldStep(f: Floor, now: nat, ev: FloorEvent, user: UserId)
    requires f.phase.Taken? && f.takenBy == Some(user) && Step(f, now, ev).0.takenBy == Some(user)
    requires !GrantSent(Step(f, now, ev).1, user)
    ensures var g := Step(f, now, ev).0;
            && g.phase.Taken? && g.takenAt == f.takenAt && g.priority == f.priority && g.indicator == f.indicator
            && g.lastPingAt == if ev == Ping(user) then now else f.lastPingAt
  {
    var (g, outs) := Step(f, now, ev);
    if ev.Request? && CanPreempt(f, ev.priority, ev.indicator) {
      assert outs[1] == ToSession(ev.user, FloorGranted(ev.user, FLOOR_MAX_TAKEN_MS));
    } else if Decides(f, now, ev) {
      DecideStep(f, now, ev);
    }
  }

  /** Throughout a tenure the floor has the user, priority and indicator of the request behind it. */
  lemma {:induction false} TenureAsAsked(run: seq<Timed>, r: nat, k: nat, i: nat)
    requires GrantFor(run, r, k) && Tenure(NEW_FLOOR, run, k, i, run[r].event.user)
    ensures HeldAs(StateAt(NEW_FLOOR, run, i), run[k].at, run[r].event.user, run[r].event.priority,
                   run[r].event.indicator)
  {
    hide Step, GrantSent;
    var user := run[r].event.user;
    assert StateAt(NEW_FLOOR, run, i).takenBy == Some(user);
    if i == k + 1 {
      GrantStep(StateAt(NEW_FLOOR, run, k), run[k].at, run[k].event, user);
    } else {
      TenureAsAsked(run, r, k, i - 1);
      assert !GrantSent(OutputAt(NEW_FLOOR, run, i - 1), user);
      HoldStep(StateAt(NEW_FLOOR, run, i - 1), run[i - 1].at, run[i - 1].event, user);
    }
  }

  lemma TakenHasHolder(run: seq<Timed>, i: nat)
    requires i <= |run|
    ensures StateAt(NEW_FLOOR, run, i).phase.Taken? <==> StateAt(NEW_FLOOR, run, i).takenBy.Some?
  {
    hide StateAt;
    RunInv(NEW_FLOOR, run, i);
  }

  /**
   * In every run, whoever holds the floor was granted it for an actual request of its own, and holds it with that
   * request's priority and indicator since the step of the grant.
   */
  lemma {:induction false} HolderAsked(run: seq<Timed>, i: nat) returns (r: nat, k: nat)
    requires i <= |run| && StateAt(NEW_FLOOR, run, i).phase.Taken?
    ensures GrantFor(run, r, k) && Tenure(NEW_FLOOR, run, k, i, run[r].event.user)
    ensures HeldAs(StateAt(NEW_FLOOR, run, i), run[k].at, run[r].event.user, run[r].event.priority,
                   run[r].event.indicator)
  {
    hide Step, GrantSent, ServedFromQueue;
    var f, t := StateAt(NEW_FLOOR, run, i - 1), run[i - 1];
    TakenHasHolder(run, i);
    TakenHasHolder(run, i - 1);
    var user := StateAt(NEW_FLOOR, run, i).takenBy.value;
    if GrantSent(OutputAt(NEW_FLOOR, run, i - 1), user) {
      k := i - 1;
      r := GrantHasRequest(run, k, user);
    } else {
      GrantAnnounced(f, t.at, t.event, user);
      r, k := HolderAsked(run, i - 1);
    }
    TenureAsAsked(run, r, k, i);
  }

  /** Nothing is left of earlier tenures on a free floor. */
  lemma {:induction false} FreeFloorIsNew(run: seq<Timed>, i: nat)
    requires i <= |run|
    ensures StateAt(NEW_FLOOR, run, i).phase.Idle? ==> StateAt(NEW_FLOOR, run, i) == NEW_FLOOR
  {
    hide Step, FloorInv;
    if i > 0 {
      FreeFloorIsNew(run, i - 1);
      NewFloorInv();
      RunInv(NEW_FLOOR, run, i - 1);
      if StateAt(NEW_FLOOR, run, i).phase.Idle? {
        FreeStep(StateAt(NEW_FLOOR, run, i - 1), run[i - 1].at, run[i - 1].event);
      }
    }
  }

  lemma NewFloorInv()
    ensures FloorInv(NEW_FLOOR)
  {
  }

  lemma FreeStep(f: Floor, now: nat, ev: FloorEvent)
    requires FloorInv(f) && (f.phase.Idle? ==> f == NEW_FLOOR) && Step(f, now, ev).0.phase.Idle?
    ensures Step(f, now, ev).0 == NEW_FLOOR
  {
  }

  // ------------------------------------------------------------------------
  // Preemption
  // ------------------------------------------------------------------------

  /** The holder so far is told that the floor is taken from it, and why; what becomes of the floor follows. */
  predicate Revoked(outs: seq<Outgoing>, user: UserId, cause: string) {
    |outs| > 1 && outs[0] == ToUser(user, FloorRevoke(cause))
  }

  lemma RequestStep(f: Floor, now: nat, ev: FloorEvent, holder: UserId)
    requires f.phase.Taken? && f.takenBy == Some(holder) && ev.Request?
    ensures var (g, outs) := Step(f, now, ev);
            if ev.indicator.Emergency? || ev.priority > f.priority
            then Revoked(outs, holder, "preempted") && GrantSent(outs, ev.user)
                 && HeldAs(g, now, ev.user, ev.priority, ev.indicator)
            else PlaceSent(outs, ev.user) && g.takenBy == Some(holder) && !GrantSent(outs, holder)
  {
    if CanPreempt(f, ev.priority, ev.indicator) {
      var outs := Step(f, now, ev).1;
      assert outs[1] == ToSession(ev.user, FloorGranted(ev.user, FLOOR_MAX_TAKEN_MS));
    }
  }

  /** A free floor goes to the request. */
  lemma FreeFloorIsGranted(run: seq<Timed>, i: nat)
    requires i < |run| && run[i].event.Request? && StateAt(NEW_FLOOR, run, i).phase.Idle?
    ensures GrantFor(run, i, i)
    ensures HeldAs(StateAt(NEW_FLOOR, run, i + 1), run[i].at, run[i].event.user, run[i].event.priority,
                   run[i].event.indicator)
  {
    var user := run[i].event.user;
    assert OutputAt(NEW_FLOOR, run, i)[0] == ToSession(user, FloorGranted(user, FLOOR_MAX_TAKEN_MS));
  }

  predicate Outranks(asked: FloorEvent, holder: FloorEvent)
    requires asked.Request? && holder.Request?
  {
    asked.indicator.Emergency? || asked.priority > holder.priority
  }

  /** Request `i` takes the floor as it asked, and the holder so far is told. */
  predicate Preempts(run: seq<Timed>, i: nat, holder: UserId)
    requires i < |run| && run[i].event.Request?
  {
    && Revoked(OutputAt(NEW_FLOOR, run, i), holder, "preempted") && GrantFor(run, i, i)
    && HeldAs(StateAt(NEW_FLOOR, run, i + 1), run[i].at, run[i].event.user, run[i].event.priority,
              run[i].event.indicator)
  }

  /** Request `i` is only told its place, and the tenure of the holder since step `k` goes on. */
  predicate KeepsWaiting(run: seq<Timed>, i: nat, k: nat, holder: UserId)
    requires i < |run| && run[i].event.Request?
  {
    PlaceSent(OutputAt(NEW_FLOOR, run, i), run[i].event.user) && Tenure(NEW_FLOOR, run, k, i + 1, holder)
  }

  /**
   * A request takes a held floor at once exactly when it is an Emergency or its priority exceeds the one that the
   * holder asked with. The holder is then told, and otherwise its tenure goes on.
   */
  lemma TakesAtOnceIff(run: seq<Timed>, i: nat, r: nat, k: nat)
    requires i < |run| && run[i].event.Request?
    requires GrantFor(run, r, k) && Tenure(NEW_FLOOR, run, k, i, run[r].event.user)
    ensures if Outranks(run[i].event, run[r].event)
            then Preempts(run, i, run[r].event.user) else KeepsWaiting(run, i, k, run[r].event.user)
  {
    hide Step, GrantSent, PlaceSent, ServedFromQueue;
    TenureAsAsked(run, r, k, i);
    RequestStep(StateAt(NEW_FLOOR, run, i), run[i].at, run[i].event, run[r].event.user);
  }

  // ------------------------------------------------------------------------
  // How long a holder keeps the floor
  // ------------------------------------------------------------------------

  predicate Monotone(run: seq<Timed>) {
    forall i, j :: 0 <= i <= j < |run| ==> run[i].at <= run[j].at
  }

  /** Step `m` is a sign of life of `user` in its tenure since step `k`: the grant or one of its own pings. */
  predicate SignOfLife(run: seq<Timed>, k: nat, m: nat, user: UserId) {
    k <= m < |run| && (m == k || run[m].event == Ping(user))
  }

  /** At step `i` some sign of life is less than the ping timeout old. */
  predicate Alive(run: seq<Timed>, k: nat, i: nat, user: UserId)
    requires i < |run|
  {
    exists m :: k <= m < i && SignOfLife(run, k, m, user) && run[i].at < run[m].at + FLOOR_PING_TIMEOUT_MS
  }

  /** The two time stamps of a holder are those of its grant and of its latest sign of life. */
  lemma {:induction false} TenureClock(f: Floor, run: seq<Timed>, k: nat, i: nat, user: UserId) returns (m: nat)
    requires Tenure(f, run, k, i, user)
    ensures k <= m < i && SignOfLife(run, k, m, user)
    ensures forall n :: m < n < i ==> !SignOfLife(run, k, n, user)
    ensures var g := StateAt(f, run, i);
            g.phase.Taken? && g.takenAt == Some(run[k].at) && g.lastPingAt == run[m].at
  {
    hide Step, GrantSent;
    if i == k + 1 {
      m := k;
      FreshGrant(StateAt(f, run, k), run[k].at, run[k].event, user);
    } else {
      assert StateAt(f, run, i).takenBy == Some(user) && !GrantSent(OutputAt(f, run, i - 1), user);
      m := TenureClock(f, run, k, i - 1, user);
      HoldStep(StateAt(f, run, i - 1), run[i - 1].at, run[i - 1].event, user);
      if run[i - 1].event == Ping(user) {
        m := i - 1;
      }
    }
  }

  lemma FreshGrant(f: Floor, now: nat, ev: FloorEvent, user: UserId)
    requires GrantSent(Step(f, now, ev).1, user)
    ensures var g := Step(f, now, ev).0;
            g.phase.Taken? && g.takenBy == Some(user) && g.takenAt == Some(now) && g.lastPingAt == now
  {
  }

  /**
   * A sweep revokes a holder exactly when its tenure has reached the limit or no grant or ping of its own is less than
   * the ping timeout old, and says which; otherwise it does nothing.
   */
  lemma SweepRevokesIff(f: Floor, run: seq<Timed>, k: nat, i: nat, user: UserId)
    requires Monotone(run) && i < |run| && run[i].event.Sweep? && Tenure(f, run, k, i, user)
    ensures var (outs, overdue) := (OutputAt(f, run, i), run[i].at >= run[k].at + FLOOR_MAX_TAKEN_MS);
            if overdue then Revoked(outs, user, "max_duration")
            else if !Alive(run, k, i, user)
            then Revoked(outs, user, "ping_timeout")
            else outs == [] && StateAt(f, run, i + 1) == StateAt(f, run, i)
  {
    hide Step;
    var m := TenureClock(f, run, k, i, user);
    assert Alive(run, k, i, user) <==> run[i].at < run[m].at + FLOOR_PING_TIMEOUT_MS;
    SweepStep(StateAt(f, run, i), run[i].at, run[k].at, user);
  }

  lemma SweepStep(f: Floor, now: nat, since: nat, user: UserId)
    requires f.phase.Taken? && f.takenBy == Some(user) && f.takenAt == Some(since)
    ensures var (g, outs) := Step(f, now, Sweep);
            if now >= since + FLOOR_MAX_TAKEN_MS
            then Revoked(outs, user, "max_duration")
            else if now >= f.lastPingAt + FLOOR_PING_TIMEOUT_MS
            then Revoked(outs, user, "ping_timeout")
            else outs == [] && g == f
  {
  }

  /** Event `i` ends the tenure of `user` since step `k`, granted for a request of that priority. */
  predicate EndsTenure(run: seq<Timed>, k: nat, i: nat, user: UserId, priority: byte)
    requires k < i < |run|
  {
    match run[i].event
    case Request(_, asked, indicator) => indicator.Emergency? || asked > priority
    case Release(other) => other == user
    case Ping(_) => false
    case Sweep => run[i].at >= run[k].at + FLOOR_MAX_TAKEN_MS || !Alive(run, k, i, user)
    case Disconnect(other) => other == user
    case AdminClear(_) => true
  }

  lemma HolderStep(f: Floor, now: nat, ev: FloorEvent, user: UserId, since: nat)
    requires f.phase.Taken? && f.takenBy == Some(user) && f.takenAt == Some(since)
    ensures (Step(f, now, ev).0.takenBy == Some(user) && !GrantSent(Step(f, now, ev).1, user)) <==>
            match ev
            case Request(_, asked, indicator) => !(indicator.Emergency? || asked > f.priority)
            case Release(other) => other != user
            case Ping(_) => true
            case Sweep => now < since + FLOOR_MAX_TAKEN_MS && now < f.lastPingAt + FLOOR_PING_TIMEOUT_MS
            case Disconnect(other) => other != user
            case AdminClear(_) => false
  {
    if ev.Request? {
      RequestStep(f, now, ev, user);
    } else if Decides(f, now, ev) {
      DecideStep(f, now, ev);
    }
  }

  lemma TenureMore(f: Floor, run: seq<Timed>, k: nat, i: nat, user: UserId)
    requires i < |run| && Tenure(f, run, k, i, user)
    ensures Tenure(f, run, k, i + 1, user)
            <==> StateAt(f, run, i + 1).takenBy == Some(user) && !GrantSent(OutputAt(f, run, i), user)
  {
    hide GrantSent, StateAt, OutputAt;
  }

  /**
   * Exactly these events end a tenure. In particular a holder keeps the floor through every sweep within the tenure
   * limit as long as it pings, and no ping of another user counts.
   */
  lemma TenureEndsIff(run: seq<Timed>, r: nat, k: nat, i: nat)
    requires Monotone(run) && i < |run|
    requires GrantFor(run, r, k) && Tenure(NEW_FLOOR, run, k, i, run[r].event.user)
    ensures Tenure(NEW_FLOOR, run, k, i + 1, run[r].event.user)
            <==> !EndsTenure(run, k, i, run[r].event.user, run[r].event.priority)
  {
    hide Step, GrantSent, ServedFromQueue;
    var user, g, t := run[r].event.user, StateAt(NEW_FLOOR, run, i), run[i];
    TenureAsAsked(run, r, k, i);
    var m := TenureClock(NEW_FLOOR, run, k, i, user);
    assert Alive(run, k, i, user) <==> run[i].at < run[m].at + FLOOR_PING_TIMEOUT_MS;
    HolderStep(g, t.at, t.event, user, run[k].at);
    TenureMore(NEW_FLOOR, run, k, i, user);
    hide Tenure;
  }

  /** So a holder keeps the floor as long as none of these events comes in. */
  lemma {:induction false} HolderKeepsFloor(run: seq<Timed>, r: nat, k: nat, j: nat)
    requires Monotone(run) && GrantFor(run, r, k) && k < j <= |run|
    ensures Tenure(NEW_FLOOR, run, k, j, run[r].event.user)
            <==> forall i :: k < i < j ==> !EndsTenure(run, k, i, run[r].event.user, run[r].event.priority)
  {
    hide EndsTenure, GrantSent, ServedFromQueue, Step;
    var user := run[r].event.user;
    if j == k + 1 {
      FreshGrant(StateAt(NEW_FLOOR, run, k), run[k].at, run[k].event, user);
    } else {
      HolderKeepsFloor(run, r, k, j - 1);
      if Tenure(NEW_FLOOR, run, k, j - 1, user) {
        TenureEndsIff(run, r, k, j - 1);
      } else {
        assert !Tenure(NEW_FLOOR, run, k, j, user);
      }
    }
  }

  // ------------------------------------------------------------------------
  // Pings
  // ------------------------------------------------------------------------

  /** Exactly the ping of the holder is answered, in any state of a run. */
  lemma PongIffHolderPings(f: Floor, now: nat, ev: FloorEvent, user: UserId)
    ensures (exists o :: o in Step(f, now, ev).1 && o.packet.FloorPong? && !o.ToMembers? && o.user == user)
            <==> ev == Ping(user) && f.takenBy == Some(user)
  {
    if ev == Ping(user) && f.takenBy == Some(user) {
      assert ToSession(user, FloorPong) in Step(f, now, ev).1;
    }
  }

  /** A ping of anyone else may as well not have been sent. */
  lemma {:induction false} OtherPingsChangeNothing(f: Floor, run: seq<Timed>, i: nat, j: nat)
    requires i < j <= |run| && run[i].event.Ping? && StateAt(f, run, i).takenBy != Some(run[i].event.user)
    ensures StateAt(f, run, j) == StateAt(f, run[..i] + run[i + 1..], j - 1)
  {
    hide Step;
    var without := run[..i] + run[i + 1..];
    if j == i + 1 {
      SamePrefix(f, run, without, i);
      OtherPingStep(StateAt(f, run, i), run[i].at, run[i].event.user);
    } else {
      OtherPingsChangeNothing(f, run, i, j - 1);
      assert without[j - 2] == run[j - 1];
    }
  }

  lemma {:induction false} SamePrefix(f: Floor, a: seq<Timed>, b: seq<Timed>, i: nat)
    requires i <= |a| && i <= |b| && a[..i] == b[..i]
    ensures StateAt(f, a, i) == StateAt(f, b, i)
  {
    hide Step;
    if i > 0 {
      assert a[..i - 1] == a[..i][..i - 1] && b[..i - 1] == b[..i][..i - 1];
      SamePrefix(f, a, b, i - 1);
      assert a[i - 1] == a[..i][i - 1] && b[i - 1] == b[..i][i - 1];
    }
  }

  lemma OtherPingStep(f: Floor, now: nat, user: UserId)
    requires f.takenBy != Some(user)
    ensures Step(f, now, Ping(user)).0 == f
  {
  }

  // ------------------------------------------------------------------------
  // What a user is told when the floor is taken from it
  // ------------------------------------------------------------------------

  /** Event `ev` takes the floor from `user` against its will, for that cause. */
  predicate TakenAway(f: Floor, now: nat, ev: FloorEvent, user: UserId, cause: string) {
    match ev
    case Request(_, priority, indicator) =>
      f.takenBy == Some(user) && (indicator.Emergency? || priority > f.priority) && cause == "preempted"
    case Sweep =>
      && f.takenBy == Some(user)
      && (if now >= f.takenAt.GetOr(now) + FLOOR_MAX_TAKEN_MS then cause == "max_duration"
          else now >= f.lastPingAt + FLOOR_PING_TIMEOUT_MS && cause == "ping_timeout")
    case AdminClear(checked) => checked == Some(user) && cause == "admin_revoke"
    case _ => false
  }

  /** Exactly these steps send a FLOOR_REVOKE, with its cause: to the holder, or to the one that the admin saw. */
  lemma RevokeIffTakenAway(f: Floor, now: nat, ev: FloorEvent, user: UserId, cause: string)
    requires FloorInv(f)
    ensures (exists o :: o in Step(f, now, ev).1 && o.packet == FloorRevoke(cause) && !o.ToMembers? && o.user == user)
            <==> TakenAway(f, now, ev, user, cause)
  {
    var outs := Step(f, now, ev).1;
    if TakenAway(f, now, ev, user, cause) {
      assert outs[0] == ToUser(user, FloorRevoke(cause));
    }
  }
}
