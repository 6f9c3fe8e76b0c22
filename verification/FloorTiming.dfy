/**
 * Time bounds over whole runs of a floor whose channel is swept at least every `period` milliseconds.
 *
 * A window starts in state `f` at time `start`, when the last sweep was at `swept`, and lasts until
 * `end`; its events are the run.
 */
module FloorTiming {
  import opened Basics
  import opened FloorControls
  import opened FloorMachine

  datatype Window = Window(f: Floor, start: nat, swept: nat, run: seq<Timed>, end: nat, period: nat)
  {
    /** When state `i` was entered. */
    function EnteredAt(i: nat): nat
      requires i <= |run|
    {
      if i == 0 then start else run[i - 1].at
    }

    /** When state `i` was left. */
    function LeftAt(i: nat): nat
      requires i <= |run|
    {
      if i == |run| then end else run[i].at
    }

    function LastSweep(i: nat): nat
      requires i <= |run|
    {
      if i == 0 then swept
      else if run[i - 1].event.Sweep? then run[i - 1].at
      else LastSweep(i - 1)
    }

    /** The clock never goes back and no state outlives the sweep period. */
    ghost predicate Timely() {
      && swept <= start
      && (forall i :: 0 <= i <= |run| ==> EnteredAt(i) <= LeftAt(i))
      && (forall i :: 0 <= i <= |run| ==> LeftAt(i) <= LastSweep(i) + period)
    }

    function At(i: nat): Floor
      requires i <= |run|
    {
      StateAt(f, run, i)
    }
  }

  /** What the last sweep and the clock say about the holder's two time stamps. */
  predicate Fresh(f: Floor, now: nat, swept: nat) {
    f.phase.Taken? ==>
      && f.takenAt.Some?
      && f.takenAt.value <= f.lastPingAt <= now
      && swept < f.takenAt.value + FLOOR_MAX_TAKEN_MS
      && swept < f.lastPingAt + FLOOR_PING_TIMEOUT_MS
  }

  lemma StepFresh(f: Floor, now: nat, ev: FloorEvent, before: nat, swept: nat)
    requires FloorInv(f) && Fresh(f, before, swept) && swept <= before <= now
    ensures Fresh(Step(f, now, ev).0, now, if ev.Sweep? then now else swept)
  {
  }

  lemma {:induction false} LastSweepPast(w: Window, i: nat)
    requires w.Timely() && i <= |w.run|
    ensures w.LastSweep(i) <= w.EnteredAt(i)
  {
    if i > 0 {
      LastSweepPast(w, i - 1);
      assert w.EnteredAt(i - 1) <= w.LeftAt(i - 1);
    }
  }

  lemma {:induction false} RunFresh(w: Window, i: nat)
    requires w.Timely() && i <= |w.run|
    requires FloorInv(w.f) && Fresh(w.f, w.start, w.swept)
    ensures FloorInv(w.At(i)) && Fresh(w.At(i), w.EnteredAt(i), w.LastSweep(i))
  {
    hide Step, FloorInv;
    RunInv(w.f, w.run, i);
    if i > 0 {
      var g, t := w.At(i - 1), w.run[i - 1];
      RunFresh(w, i - 1);
      LastSweepPast(w, i - 1);
      assert w.EnteredAt(i - 1) <= w.LeftAt(i - 1);
      StepFresh(g, t.at, t.event, w.EnteredAt(i - 1), w.LastSweep(i - 1));
    }
  }

  /** No tenure and no silence of a holder lasts a full limit plus one sweep period. */
  lemma TenureIsBounded(w: Window, i: nat, now: nat)
    requires w.Timely() && i <= |w.run| && w.EnteredAt(i) <= now <= w.LeftAt(i)
    requires FloorInv(w.f) && Fresh(w.f, w.start, w.swept)
    requires w.At(i).phase.Taken?
    ensures w.At(i).takenAt.Some?
    ensures now < w.At(i).takenAt.value + FLOOR_MAX_TAKEN_MS + w.period
    ensures now < w.At(i).lastPingAt + FLOOR_PING_TIMEOUT_MS + w.period
  {
    RunFresh(w, i);
    assert w.LeftAt(i) <= w.LastSweep(i) + w.period;
  }

  /**
   * What a sweep at `now` leaves behind: a free floor, a fresh grant, or the untouched state of a holder
   * within both limits. It never takes the floor from such a holder.
   */
  lemma AfterSweep(f: Floor, now: nat)
    requires FloorInv(f)
    ensures var g := Step(f, now, Sweep).0;
            && !MaxTakenExceeded(g, now) && !PingTimedOut(g, now)
            && (g == f || g.phase.Idle? || (g.takenAt == Some(now) && g.lastPingAt == now))
            && (!MaxTakenExceeded(f, now) && !PingTimedOut(f, now) ==> g == f)
  {
  }

  // ------------------------------------------------------------------------
  // Bounded waiting
  // ------------------------------------------------------------------------

  /** Step `ev` takes the waiting entry of `user` from the queue and gives it the floor. */
  predicate GrantsFromQueue(f: Floor, now: nat, ev: FloorEvent, user: UserId) {
    && Decides(f, now, ev)
    && GrantSent(Step(f, now, ev).1, user)
    && Step(f, now, ev).0.takenBy == Some(user)
  }

  /** `user` gives up its place: it disconnects, or sends a release while it does not hold the floor. */
  predicate Withdraws(f: Floor, ev: FloorEvent, user: UserId) {
    || ev == Disconnect(user)
    || (ev == Release(user) && f.takenBy != Some(user))
  }

  /** The event neither overtakes a waiting entry of `user` with priority `rank` nor clears the floor by hand. */
  predicate Calm(f: Floor, ev: FloorEvent, user: UserId, rank: byte) {
    && !ev.AdminClear?
    && (ev.Request? ==>
          ev.user != user && ev.priority <= rank && !CanPreempt(f, ev.priority, ev.indicator))
  }

  /** `user` waits at 0-based index `place` with priority `rank`. */
  predicate WaitsAt(q: seq<QueueEntry>, user: UserId, rank: byte, place: nat) {
    place < |q| && q[place].userId == user && q[place].priority == rank
  }

  lemma {:induction false} RetainPlace(q: seq<QueueEntry>, other: UserId, user: UserId, rank: byte, place: nat)
    returns (place': nat)
    requires WaitsAt(q, user, rank, place) && other != user
    ensures place' <= place && WaitsAt(Retain(q, other), user, rank, place')
  {
    if place == 0 {
      place' := 0;
    } else {
      var p := RetainPlace(q[1..], other, user, rank, place - 1);
      place' := if q[0].userId == other then p else p + 1;
    }
  }

  lemma {:induction false} InsertBehind(q: seq<QueueEntry>, e: QueueEntry, user: UserId, rank: byte, place: nat)
    requires Sorted(q) && WaitsAt(q, user, rank, place) && e.priority <= rank
    ensures WaitsAt(Insert(q, e), user, rank, place)
  {
    assert q[0].priority >= q[place].priority;
    if place > 0 {
      InsertBehind(q[1..], e, user, rank, place - 1);
    }
  }

  /** The floor that `decide_next` finds. */
  function Decided(f: Floor, ev: FloorEvent): Floor {
    if ev.Disconnect? then Removed(f, ev.user) else f
  }

  lemma DecideStep(f: Floor, now: nat, ev: FloorEvent)
    requires Decides(f, now, ev)
    ensures Step(f, now, ev).0 == DecideNext(Decided(f, ev), now).0
    ensures Decided(f, ev).queue != [] ==> GrantsFromQueue(f, now, ev, Decided(f, ev).queue[0].userId)
  {
    var g := Decided(f, ev);
    if g.queue != [] {
      var user, outs := g.queue[0].userId, Step(f, now, ev).1;
      var k := if ev.Sweep? then 1 else 0;
      assert outs[k] == ToUser(user, FloorGranted(user, FLOOR_MAX_TAKEN_MS));
      assert GrantSent(outs, user);
    }
  }

  /** One calm step: the place does not get worse, and a change of holder improves it or grants the floor. */
  lemma WaitingStep(f: Floor, now: nat, ev: FloorEvent, user: UserId, rank: byte, place: nat)
    returns (place': nat)
    requires FloorInv(f) && WaitsAt(f.queue, user, rank, place) && Calm(f, ev, user, rank)
    requires !Withdraws(f, ev, user) && !GrantsFromQueue(f, now, ev, user)
    ensures WaitsAt(Step(f, now, ev).0.queue, user, rank, place')
    ensures (place' <= place && Step(f, now, ev).0.takenAt == f.takenAt)
            || (place' < place && Step(f, now, ev).0.takenAt == Some(now))
  {
    place' := place;
    if Decides(f, now, ev) {
      if ev.Disconnect? {
        place' := RetainPlace(f.queue, ev.user, user, rank, place);
      }
      DecideStep(f, now, ev);
      place' := place' - 1;
    } else if ev.Request? {
      place' := RetainPlace(f.queue, ev.user, user, rank, place);
      RetainSorted(f.queue, ev.user);
      InsertBehind(Retain(f.queue, ev.user), QueueEntry(ev.user, ev.priority, ev.indicator, now), user, rank, place');
    } else if ev.Release? || ev.Disconnect? {
      place' := RetainPlace(f.queue, ev.user, user, rank, place);
    }
  }

  /** `user` is still waiting in state `i`: nothing before it granted or withdrew the request. */
  predicate Undisturbed(w: Window, user: UserId, i: nat)
    requires i <= |w.run|
  {
    forall j :: 0 <= j < i ==>
      && !Withdraws(w.At(j), w.run[j].event, user)
      && !GrantsFromQueue(w.At(j), w.run[j].at, w.run[j].event, user)
  }

  /** Event `i` settles the request: the first one that withdraws it or grants the floor from the queue. */
  predicate SettledBy(w: Window, user: UserId, i: nat)
    requires i < |w.run|
  {
    && Undisturbed(w, user, i)
    && (Withdraws(w.At(i), w.run[i].event, user)
        || GrantsFromQueue(w.At(i), w.run[i].at, w.run[i].event, user))
  }

  predicate CalmUntil(w: Window, user: UserId, rank: byte, i: nat)
    requires i <= |w.run|
  {
    forall j :: 0 <= j < i ==> Calm(w.At(j), w.run[j].event, user, rank)
  }

  /** Every event is calm as long as `user` is still waiting. */
  predicate CalmWhileWaiting(w: Window, user: UserId, rank: byte) {
    forall j :: 0 <= j < |w.run| && Undisturbed(w, user, j) ==> Calm(w.At(j), w.run[j].event, user, rank)
  }

  /** Longest tenure of a holder under the window's sweep period. */
  function Tenure(w: Window): nat {
    FLOOR_MAX_TAKEN_MS + w.period
  }

  /** A user still waiting has advanced with every tenure that ended. */
  lemma {:induction false} StillWaiting(w: Window, user: UserId, rank: byte, place: nat, i: nat)
    returns (place': nat)
    requires w.Timely() && FloorInv(w.f) && Fresh(w.f, w.start, w.swept)
    requires WaitsAt(w.f.queue, user, rank, place)
    requires i <= |w.run| && Undisturbed(w, user, i) && CalmUntil(w, user, rank, i)
    ensures place' <= place && WaitsAt(w.At(i).queue, user, rank, place')
    ensures w.At(i).takenAt.Some?
    ensures w.At(i).takenAt.value <= w.start + (place - place') * Tenure(w)
  {
    hide Step, Calm, Withdraws, GrantsFromQueue;
    RunFresh(w, i);
    if i == 0 {
      place' := place;
    } else {
      var p := StillWaiting(w, user, rank, place, i - 1);
      var g, t := w.At(i - 1), w.run[i - 1];
      RunFresh(w, i - 1);
      place' := WaitingStep(g, t.at, t.event, user, rank, p);
      TenureIsBounded(w, i - 1, t.at);
      Advance(place - p, place - place', Tenure(w));
    }
  }

  lemma {:induction false} Advance(a: nat, b: nat, unit: nat)
    requires a <= b
    ensures a * unit <= b * unit
    ensures a < b ==> a * unit + unit <= b * unit
    decreases b - a
  {
    if a < b {
      Advance(a, b - 1, unit);
      assert b * unit == (b - 1) * unit + unit;
    }
  }

  /**
   * Bounded waiting. A user waiting at 1-based position `k` in a calm window of at least
   * `k` tenures is given the floor, or withdraws, within them.
   */
  lemma BoundedWaiting(w: Window, user: UserId, rank: byte, k: nat)
    requires w.Timely() && FloorInv(w.f) && Fresh(w.f, w.start, w.swept)
    requires k > 0 && WaitsAt(w.f.queue, user, rank, k - 1) && CalmWhileWaiting(w, user, rank)
    requires w.end >= w.start + k * Tenure(w)
    ensures exists i :: 0 <= i < |w.run| && w.run[i].at < w.start + k * Tenure(w) && SettledBy(w, user, i)
  {
    hide Step, Calm, Withdraws, GrantsFromQueue;
    var i := FirstDisturbance(w, user, |w.run|);
    assert CalmUntil(w, user, rank, i) by {
      assert forall j :: 0 <= j < i ==> Undisturbed(w, user, j);
    }
    var place := StillWaiting(w, user, rank, k - 1, i);
    RunFresh(w, i);
    Advance(k - 1 - place, k, Tenure(w));
    TenureIsBounded(w, i, w.LeftAt(i));
  }

  /** The first state in which the user's request is settled, or `n`. */
  lemma {:induction false} FirstDisturbance(w: Window, user: UserId, n: nat) returns (i: nat)
    requires n <= |w.run|
    ensures i <= n && Undisturbed(w, user, i)
    ensures i == n || Withdraws(w.At(i), w.run[i].event, user)
            || GrantsFromQueue(w.At(i), w.run[i].at, w.run[i].event, user)
  {
    hide Step, Withdraws, GrantsFromQueue;
    if n == 0 {
      i := 0;
    } else {
      i := FirstDisturbance(w, user, n - 1);
      if i == n - 1 && !Withdraws(w.At(i), w.run[i].event, user)
         && !GrantsFromQueue(w.At(i), w.run[i].at, w.run[i].event, user) {
        i := n;
      }
    }
  }

  /** Events a waiting user cannot lose ground to, told from the events alone. */
  predicate Gentle(ev: FloorEvent, user: UserId, rank: byte) {
    && !ev.AdminClear?
    && (ev.Request? ==> ev.user != user && ev.priority <= rank && !ev.indicator.Emergency?)
  }

  /**
   * Under the ceiling every request of no higher priority, Emergencies apart, is calm: bounded waiting
   * then needs nothing but the events. In particular it holds when no request comes in at all.
   */
  lemma BoundedWaitingUnderCeiling(w: Window, user: UserId, rank: byte, k: nat)
    requires w.Timely() && FloorInv(w.f) && Fresh(w.f, w.start, w.swept) && Ceiling(w.f)
    requires k > 0 && WaitsAt(w.f.queue, user, rank, k - 1)
    requires forall j :: 0 <= j < |w.run| ==> Gentle(w.run[j].event, user, rank)
    requires w.end >= w.start + k * Tenure(w)
    ensures exists i :: 0 <= i < |w.run| && w.run[i].at < w.start + k * Tenure(w) && SettledBy(w, user, i)
  {
    hide Step, StateAt, Undisturbed, SettledBy, Calm, Gentle, WaitsAt, Ceiling, Fresh, FloorInv;
    forall j | 0 <= j < |w.run| && Undisturbed(w, user, j)
      ensures Calm(w.At(j), w.run[j].event, user, rank)
    {
      GentleIsCalm(w, user, rank, k - 1, j + 1);
    }
    BoundedWaiting(w, user, rank, k);
  }

  lemma {:induction false} GentleIsCalm(w: Window, user: UserId, rank: byte, place: nat, i: nat)
    requires w.Timely() && FloorInv(w.f) && Fresh(w.f, w.start, w.swept) && Ceiling(w.f)
    requires WaitsAt(w.f.queue, user, rank, place)
    requires forall j :: 0 <= j < |w.run| ==> Gentle(w.run[j].event, user, rank)
    requires i <= |w.run| && (i > 0 ==> Undisturbed(w, user, i - 1))
    ensures CalmUntil(w, user, rank, i)
  {
    hide Step;
    if i > 0 {
      GentleIsCalm(w, user, rank, place, i - 1);
      var p := StillWaiting(w, user, rank, place, i - 1);
      CeilingKept(w, i - 1, user, rank);
      assert w.At(i - 1).queue[p].priority <= w.At(i - 1).priority;
      assert Gentle(w.run[i - 1].event, user, rank);
    }
  }

  lemma {:induction false} CeilingKept(w: Window, i: nat, user: UserId, rank: byte)
    requires FloorInv(w.f) && Ceiling(w.f)
    requires forall j :: 0 <= j < |w.run| ==> Gentle(w.run[j].event, user, rank)
    requires i <= |w.run|
    ensures Ceiling(w.At(i))
  {
    hide Step;
    if i > 0 {
      CeilingKept(w, i - 1, user, rank);
      RunInv(w.f, w.run, i - 1);
      assert Gentle(w.run[i - 1].event, user, rank);
      CeilingStep(w.At(i - 1), w.run[i - 1].at, w.run[i - 1].event);
    }
  }
}
