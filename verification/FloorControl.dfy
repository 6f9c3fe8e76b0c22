/**
 * The per-channel floor: `FloorControl` of src/core/floor.rs.
 *
 * `Floor` is the value of the struct, the functions on it specify the operations, and the
 * class `FloorControl` carries the fields that the operations update in place.
 * The clock is a parameter `now`: one reading per critical section.
 */
module FloorControls {
  import opened Basics

  const FLOOR_PING_TIMEOUT_MS: nat := 6_000
  const FLOOR_MAX_TAKEN_MS: nat := 30_000
  const FLOOR_PRIORITY_DEFAULT: byte := 100

  datatype FloorIndicator = Normal | Broadcast | ImminentPeril | Emergency

  datatype FloorPhase = Idle | Taken

  datatype QueueEntry =
    QueueEntry(userId: UserId, priority: byte, indicator: FloorIndicator, queuedAt: nat)

  datatype Floor = Floor(
    phase: FloorPhase,
    takenBy: Option<UserId>,
    takenAt: Option<nat>,
    priority: byte,
    indicator: FloorIndicator,
    queue: seq<QueueEntry>,
    lastPingAt: nat
  )

  const NEW_FLOOR := Floor(Idle, None, None, 0, Normal, [], 0)

  function Cleared(f: Floor): Floor {
    Floor(Idle, None, None, 0, Normal, f.queue, 0)
  }

  function Granted(f: Floor, now: nat, user: UserId, priority: byte, indicator: FloorIndicator): Floor {
    Floor(Taken, Some(user), Some(now), priority, indicator, f.queue, now)
  }

  /** The entries of the other users, in their order. */
  function Retain(q: seq<QueueEntry>, user: UserId): seq<QueueEntry> {
    if q == [] then []
    else if q[0].userId == user then Retain(q[1..], user)
    else [q[0]] + Retain(q[1..], user)
  }

  /** Puts `e` in front of the first entry of lower priority. */
  function Insert(q: seq<QueueEntry>, e: QueueEntry): seq<QueueEntry> {
    if q == [] || q[0].priority < e.priority then [e] + q
    else [q[0]] + Insert(q[1..], e)
  }

  function Enqueued(f: Floor, now: nat, user: UserId, priority: byte, indicator: FloorIndicator): Floor {
    f.(queue := Insert(Retain(f.queue, user), QueueEntry(user, priority, indicator, now)))
  }

  function Removed(f: Floor, user: UserId): Floor {
    f.(queue := Retain(f.queue, user))
  }

  /** Index of the first entry of `user`, if any. */
  function Position(q: seq<QueueEntry>, user: UserId): (r: Option<nat>)
    ensures r.Some? ==> r.value < |q| && q[r.value].userId == user
    ensures r.Some? ==> forall i :: 0 <= i < r.value ==> q[i].userId != user
    ensures r.None? ==> forall i :: 0 <= i < |q| ==> q[i].userId != user
  {
    if q == [] then None
    else if q[0].userId == user then Some(0)
    else match Position(q[1..], user)
      case Some(i) =>
        assert forall k :: 1 <= k < |q| ==> q[k] == q[1..][k - 1];
        Some(i + 1)
      case None =>
        assert forall k :: 1 <= k < |q| ==> q[k] == q[1..][k - 1];
        None
  }

  predicate CanPreempt(f: Floor, priority: byte, indicator: FloorIndicator) {
    f.phase.Taken? && (indicator.Emergency? || priority > f.priority)
  }

  predicate PingTimedOut(f: Floor, now: nat) {
    f.phase.Taken? && SaturatingSub(now, f.lastPingAt) >= FLOOR_PING_TIMEOUT_MS
  }

  predicate MaxTakenExceeded(f: Floor, now: nat) {
    f.takenAt.Some? && SaturatingSub(now, f.takenAt.value) >= FLOOR_MAX_TAKEN_MS
  }

  // ------------------------------------------------------------------------
  // Shape of the queue
  // ------------------------------------------------------------------------

  predicate Sorted(q: seq<QueueEntry>) {
    forall i, j :: 0 <= i < j < |q| ==> q[i].priority >= q[j].priority
  }

  predicate OnePerUser(q: seq<QueueEntry>) {
    forall i, j :: 0 <= i < j < |q| ==> q[i].userId != q[j].userId
  }

  /** Dropping a user keeps exactly the entries of the others. */
  lemma {:induction false} RetainMembers(q: seq<QueueEntry>, user: UserId)
    ensures forall e :: e in Retain(q, user) <==> e in q && e.userId != user
  {
    if q != [] {
      RetainMembers(q[1..], user);
      assert q == [q[0]] + q[1..];
    }
  }

  lemma {:induction false} RetainSorted(q: seq<QueueEntry>, user: UserId)
    requires Sorted(q)
    ensures Sorted(Retain(q, user))
  {
    if q != [] {
      var rest := Retain(q[1..], user);
      RetainSorted(q[1..], user);
      RetainMembers(q[1..], user);
      forall k | 0 <= k < |rest| ensures q[0].priority >= rest[k].priority {
        assert rest[k] in q[1..];
      }
    }
  }

  lemma {:induction false} RetainOnePerUser(q: seq<QueueEntry>, user: UserId)
    requires OnePerUser(q)
    ensures OnePerUser(Retain(q, user))
  {
    if q != [] {
      var rest := Retain(q[1..], user);
      RetainOnePerUser(q[1..], user);
      RetainMembers(q[1..], user);
      forall k | 0 <= k < |rest| ensures q[0].userId != rest[k].userId {
        assert rest[k] in q[1..];
      }
    }
  }

  /** Inserting adds exactly one entry. */
  lemma {:induction false} InsertMembers(q: seq<QueueEntry>, e: QueueEntry)
    ensures multiset(Insert(q, e)) == multiset(q) + multiset{e}
    ensures forall x :: x in Insert(q, e) <==> x in q || x == e
  {
    if q == [] || q[0].priority < e.priority {
    } else {
      InsertMembers(q[1..], e);
      assert q == [q[0]] + q[1..];
    }
    assert forall x :: x in Insert(q, e) <==> x in multiset(Insert(q, e));
  }

  lemma {:induction false} InsertSorted(q: seq<QueueEntry>, e: QueueEntry)
    requires Sorted(q)
    ensures Sorted(Insert(q, e))
  {
    if q == [] || q[0].priority < e.priority {
    } else {
      var rest := Insert(q[1..], e);
      InsertSorted(q[1..], e);
      InsertMembers(q[1..], e);
      forall k | 0 <= k < |rest| ensures q[0].priority >= rest[k].priority {
        assert rest[k] in q[1..] || rest[k] == e;
      }
    }
  }

  lemma {:induction false} InsertOnePerUser(q: seq<QueueEntry>, e: QueueEntry)
    requires OnePerUser(q) && forall x :: x in q ==> x.userId != e.userId
    ensures OnePerUser(Insert(q, e))
  {
    if q == [] || q[0].priority < e.priority {
      forall k | 0 <= k < |q| ensures e.userId != q[k].userId {
        assert q[k] in q;
      }
    } else {
      var rest := Insert(q[1..], e);
      assert q[0] in q && forall x :: x in q[1..] ==> x in q;
      InsertOnePerUser(q[1..], e);
      InsertMembers(q[1..], e);
      forall k | 0 <= k < |rest| ensures q[0].userId != rest[k].userId {
        assert rest[k] in q[1..] || rest[k] == e;
      }
    }
  }

  /** The recursive insertion is the one at the index found by a left-to-right search. */
  lemma {:induction false} InsertAt(q: seq<QueueEntry>, e: QueueEntry, pos: nat)
    requires pos <= |q|
    requires forall i :: 0 <= i < pos ==> q[i].priority >= e.priority
    requires pos == |q| || q[pos].priority < e.priority
    ensures Insert(q, e) == q[..pos] + [e] + q[pos..]
  {
    if pos == 0 {
      assert q[..0] == [] && q[0..] == q;
    } else {
      var rest := q[1..];
      InsertAt(rest, e, pos - 1);
      assert Insert(q, e) == [q[0]] + Insert(rest, e);
      hide Insert;
      assert q[..pos] == [q[0]] + rest[..pos - 1] && q[pos..] == rest[pos - 1..];
    }
  }

  lemma {:induction false} RetainSnoc(q: seq<QueueEntry>, e: QueueEntry, user: UserId)
    ensures Retain(q + [e], user) == Retain(q, user) + (if e.userId == user then [] else [e])
  {
    if q == [] {
    } else {
      RetainSnoc(q[1..], e, user);
      assert (q + [e])[1..] == q[1..] + [e];
    }
  }

  // ------------------------------------------------------------------------
  // The struct with its fields
  // ------------------------------------------------------------------------

  class FloorControl {
    var phase: FloorPhase
    var takenBy: Option<UserId>
    var takenAt: Option<nat>
    var priority: byte
    var indicator: FloorIndicator
    var queue: seq<QueueEntry>
    var lastPingAt: nat

    function Value(): Floor
      reads this
    {
      Floor(phase, takenBy, takenAt, priority, indicator, queue, lastPingAt)
    }

    constructor ()
      ensures Value() == NEW_FLOOR
    {
      phase, takenBy, takenAt := Idle, None, None;
      priority, indicator := 0, Normal;
      queue, lastPingAt := [], 0;
    }

    method ClearTaken()
      modifies this
      ensures Value() == Cleared(old(Value()))
    {
      phase := Idle;
      takenBy := None;
      takenAt := None;
      priority := 0;
      indicator := Normal;
      lastPingAt := 0;
    }

    method Grant(now: nat, user: UserId, priority: byte, indicator: FloorIndicator)
      modifies this
      ensures Value() == Granted(old(Value()), now, user, priority, indicator)
    {
      phase := Taken;
      takenBy := Some(user);
      takenAt := Some(now);
      this.priority := priority;
      this.indicator := indicator;
      lastPingAt := now;
    }

    method RemoveFromQueue(user: UserId)
      modifies this
      ensures Value() == Removed(old(Value()), user)
    {
      var kept: seq<QueueEntry> := [];
      for i := 0 to |queue|
        invariant Value() == old(Value())
        invariant kept == Retain(queue[..i], user)
      {
        RetainSnoc(queue[..i], queue[i], user);
        assert queue[..i + 1] == queue[..i] + [queue[i]];
        if queue[i].userId != user {
          kept := kept + [queue[i]];
        }
      }
      assert queue[..|queue|] == queue;
      queue := kept;
    }

    method Enqueue(now: nat, user: UserId, priority: byte, indicator: FloorIndicator)
      modifies this
      ensures Value() == Enqueued(old(Value()), now, user, priority, indicator)
    {
      RemoveFromQueue(user);
      var entry := QueueEntry(user, priority, indicator, now);
      var pos := 0;
      while pos < |queue| && queue[pos].priority >= entry.priority
        invariant 0 <= pos <= |queue|
        invariant forall i :: 0 <= i < pos ==> queue[i].priority >= entry.priority
      {
        pos := pos + 1;
      }
      InsertAt(queue, entry, pos);
      queue := queue[..pos] + [entry] + queue[pos..];
    }

    method DequeueNext() returns (next: Option<QueueEntry>)
      modifies this
      ensures old(queue) == [] ==> next.None? && Value() == old(Value())
      ensures old(queue) != [] ==>
                next == Some(old(queue)[0]) && Value() == old(Value()).(queue := old(queue)[1..])
    {
      if queue == [] {
        next := None;
      } else {
        next := Some(queue[0]);
        queue := queue[1..];
      }
    }

    /** 1-based position in the queue. */
    method QueuePosition(user: UserId) returns (r: Option<nat>)
      ensures match Position(queue, user)
              case None => r == None
              case Some(i) => r == Some(i + 1)
    {
      var i := 0;
      while i < |queue|
        invariant 0 <= i <= |queue|
        invariant forall k :: 0 <= k < i ==> queue[k].userId != user
      {
        if queue[i].userId == user {
          return Some(i + 1);
        }
        i := i + 1;
      }
      return None;
    }

    method OnPing(now: nat)
      modifies this
      ensures Value() == old(Value()).(lastPingAt := now)
    {
      lastPingAt := now;
    }
  }
}
