/**
 * What the order of the waiting queue means.
 *
 * The reference is the history of queue operations. `WaitLog` keeps, in arrival order, the latest
 * request of every user that nothing later in the history took out, and `ByPriority` sorts that log
 * bucket by bucket. The queue that `FloorControl` maintains by insertion is that bucket sort.
 */
module QueueOrder {
  import opened Basics
  import opened FloorControls

  datatype QueueOp = Enqueue(entry: QueueEntry) | Dequeue | Remove(user: UserId) | Clear

  /** One queue operation as `FloorControl` performs it. */
  function Apply(q: seq<QueueEntry>, op: QueueOp): seq<QueueEntry> {
    match op
    case Enqueue(e) => Insert(Retain(q, e.userId), e)
    case Dequeue => if q == [] then [] else q[1..]
    case Remove(user) => Retain(q, user)
    case Clear => []
  }

  function QueueAfter(ops: seq<QueueOp>): seq<QueueEntry> {
    if ops == [] then [] else Apply(QueueAfter(ops[..|ops| - 1]), ops[|ops| - 1])
  }

  // ------------------------------------------------------------------------
  // The reference
  // ------------------------------------------------------------------------

  /** What an operation did, with the served user named. */
  datatype Happening = Requested(entry: QueueEntry) | Served(user: UserId) | Left(user: UserId) | Emptied | Nothing

  function Observed(q: seq<QueueEntry>, op: QueueOp): Happening {
    match op
    case Enqueue(e) => Requested(e)
    case Dequeue => if q == [] then Nothing else Served(q[0].userId)
    case Remove(user) => Left(user)
    case Clear => Emptied
  }

  function History(ops: seq<QueueOp>): seq<Happening> {
    if ops == [] then []
    else
      var before := ops[..|ops| - 1];
      History(before) + [Observed(QueueAfter(before), ops[|ops| - 1])]
  }

  /** `h` takes an earlier request of `user` out of consideration. */
  predicate Ends(h: Happening, user: UserId) {
    match h
    case Requested(e) => e.userId == user
    case Served(u) => u == user
    case Left(u) => u == user
    case Emptied => true
    case Nothing => false
  }

  predicate StillWaiting(later: seq<Happening>, user: UserId) {
    forall i :: 0 <= i < |later| ==> !Ends(later[i], user)
  }

  /** Latest request of every user still waiting, in arrival order. */
  function WaitLog(hs: seq<Happening>): seq<QueueEntry> {
    if hs == [] then []
    else if hs[0].Requested? && StillWaiting(hs[1..], hs[0].entry.userId) then [hs[0].entry] + WaitLog(hs[1..])
    else WaitLog(hs[1..])
  }

  function OfPriority(log: seq<QueueEntry>, p: nat): seq<QueueEntry> {
    if log == [] then []
    else if log[0].priority == p then [log[0]] + OfPriority(log[1..], p)
    else OfPriority(log[1..], p)
  }

  /** The entries of `log` with priority at most `p`: highest priority first, arrival order inside a priority. */
  function ByPriority(log: seq<QueueEntry>, p: nat): seq<QueueEntry> {
    if p == 0 then OfPriority(log, 0) else OfPriority(log, p) + ByPriority(log, p - 1)
  }

  // ------------------------------------------------------------------------
  // The log follows the history
  // ------------------------------------------------------------------------

  function LogStep(log: seq<QueueEntry>, h: Happening): seq<QueueEntry> {
    match h
    case Requested(e) => Retain(log, e.userId) + [e]
    case Served(user) => Retain(log, user)
    case Left(user) => Retain(log, user)
    case Emptied => []
    case Nothing => log
  }

  lemma {:induction false} WaitLogSnoc(hs: seq<Happening>, h: Happening)
    ensures WaitLog(hs + [h]) == LogStep(WaitLog(hs), h)
  {
    if hs == [] {
      assert [h][1..] == [];
    } else {
      var rest, more := hs[1..], hs[1..] + [h];
      assert (hs + [h])[1..] == more;
      WaitLogSnoc(rest, h);
      if hs[0].Requested? {
        var user := hs[0].entry.userId;
        assert StillWaiting(more, user) <==> StillWaiting(rest, user) && !Ends(h, user) by {
          assert more[|rest|] == h;
          assert forall i :: 0 <= i < |rest| ==> more[i] == rest[i];
        }
      }
    }
  }

  // ------------------------------------------------------------------------
  // The sort follows the log
  // ------------------------------------------------------------------------

  lemma {:induction false} RetainAppend(a: seq<QueueEntry>, b: seq<QueueEntry>, user: UserId)
    ensures Retain(a + b, user) == Retain(a, user) + Retain(b, user)
  {
    if a == [] {
      assert a + b == b;
    } else {
      RetainAppend(a[1..], b, user);
      assert (a + b)[1..] == a[1..] + b && (a + b)[0] == a[0];
      var x, y := Retain(a[1..], user), Retain(b, user);
      assert [a[0]] + (x + y) == ([a[0]] + x) + y;
    }
  }

  lemma {:induction false} OfPriorityRetain(log: seq<QueueEntry>, p: nat, user: UserId)
    ensures OfPriority(Retain(log, user), p) == Retain(OfPriority(log, p), user)
  {
    if log != [] {
      OfPriorityRetain(log[1..], p, user);
      assert forall x: QueueEntry, r: seq<QueueEntry> :: ([x] + r)[1..] == r;
    }
  }

  lemma {:induction false} ByPriorityRetain(log: seq<QueueEntry>, p: nat, user: UserId)
    ensures ByPriority(Retain(log, user), p) == Retain(ByPriority(log, p), user)
  {
    OfPriorityRetain(log, p, user);
    if p > 0 {
      ByPriorityRetain(log, p - 1, user);
      RetainAppend(OfPriority(log, p), ByPriority(log, p - 1), user);
    } else {
      RetainAppend(OfPriority(log, p), [], user);
    }
  }

  lemma {:induction false} OfPrioritySnoc(log: seq<QueueEntry>, e: QueueEntry, p: nat)
    ensures OfPriority(log + [e], p) == if e.priority == p then OfPriority(log, p) + [e] else OfPriority(log, p)
  {
    if log != [] {
      OfPrioritySnoc(log[1..], e, p);
      assert (log + [e])[1..] == log[1..] + [e];
    }
  }

  lemma {:induction false} OfPriorityIs(log: seq<QueueEntry>, p: nat)
    ensures forall i :: 0 <= i < |OfPriority(log, p)| ==> OfPriority(log, p)[i].priority == p
  {
    if log != [] {
      OfPriorityIs(log[1..], p);
    }
  }

  lemma {:induction false} ByPriorityAtMost(log: seq<QueueEntry>, p: nat)
    ensures forall i :: 0 <= i < |ByPriority(log, p)| ==> ByPriority(log, p)[i].priority <= p
  {
    OfPriorityIs(log, p);
    if p > 0 {
      ByPriorityAtMost(log, p - 1);
    }
  }

  lemma {:induction false} InsertPast(a: seq<QueueEntry>, b: seq<QueueEntry>, e: QueueEntry)
    requires forall i :: 0 <= i < |a| ==> a[i].priority >= e.priority
    ensures Insert(a + b, e) == a + Insert(b, e)
  {
    if a == [] {
      assert a + b == b;
    } else {
      InsertPast(a[1..], b, e);
      assert (a + b)[1..] == a[1..] + b;
    }
  }

  /** Logs that agree on every priority up to `p` sort alike up to `p`. */
  lemma {:induction false} ByPriorityDepends(log: seq<QueueEntry>, log': seq<QueueEntry>, p: nat)
    requires forall k: nat :: k <= p ==> OfPriority(log, k) == OfPriority(log', k)
    ensures ByPriority(log, p) == ByPriority(log', p)
  {
    if p > 0 {
      ByPriorityDepends(log, log', p - 1);
    }
  }

  lemma {:induction false} InsertFirst(q: seq<QueueEntry>, e: QueueEntry)
    requires forall i :: 0 <= i < |q| ==> q[i].priority < e.priority
    ensures Insert(q, e) == [e] + q
  {
  }

  /** Inserting `e` into a bucket of its own or a higher priority followed by the lower buckets. */
  lemma {:induction false} InsertIntoBuckets(bucket: seq<QueueEntry>, lower: seq<QueueEntry>, e: QueueEntry, p: nat)
    requires e.priority <= p
    requires forall i :: 0 <= i < |bucket| ==> bucket[i].priority == p
    requires e.priority == p ==> forall i :: 0 <= i < |lower| ==> lower[i].priority < p
    ensures Insert(bucket + lower, e)
         == if e.priority == p then (bucket + [e]) + lower else bucket + Insert(lower, e)
  {
    InsertPast(bucket, lower, e);
    if e.priority == p {
      InsertFirst(lower, e);
      assert bucket + ([e] + lower) == (bucket + [e]) + lower;
    }
  }

  lemma {:induction false} ByPriorityInsert(log: seq<QueueEntry>, log': seq<QueueEntry>, e: QueueEntry, p: nat)
    requires e.priority <= p && log' == log + [e]
    ensures ByPriority(log', p) == Insert(ByPriority(log, p), e)
  {
    hide Insert, OfPriority;
    var bucket := OfPriority(log, p);
    OfPrioritySnoc(log, e, p);
    OfPriorityIs(log, p);
    if p == 0 {
      InsertIntoBuckets(bucket, [], e, p);
      assert bucket + [] == bucket && (bucket + [e]) + [] == bucket + [e];
    } else {
      var lower := ByPriority(log, p - 1);
      if e.priority < p {
        ByPriorityInsert(log, log', e, p - 1);
      } else {
        forall k: nat | k < p ensures OfPriority(log, k) == OfPriority(log', k) {
          OfPrioritySnoc(log, e, k);
        }
        ByPriorityDepends(log, log', p - 1);
        ByPriorityAtMost(log, p - 1);
      }
      InsertIntoBuckets(bucket, lower, e, p);
      assert ByPriority(log, p) == bucket + lower;
      assert ByPriority(log', p) == OfPriority(log', p) + ByPriority(log', p - 1);
    }
  }

  lemma {:induction false} RetainAbsent(q: seq<QueueEntry>, user: UserId)
    requires forall i :: 0 <= i < |q| ==> q[i].userId != user
    ensures Retain(q, user) == q
  {
    if q != [] {
      RetainAbsent(q[1..], user);
    }
  }

  lemma {:induction false} OnePerUserAfter(ops: seq<QueueOp>)
    ensures OnePerUser(QueueAfter(ops)) && Sorted(QueueAfter(ops))
  {
    if ops != [] {
      var before := QueueAfter(ops[..|ops| - 1]);
      OnePerUserAfter(ops[..|ops| - 1]);
      match ops[|ops| - 1]
      case Enqueue(e) =>
        RetainMembers(before, e.userId);
        RetainSorted(before, e.userId);
        RetainOnePerUser(before, e.userId);
        InsertSorted(Retain(before, e.userId), e);
        InsertOnePerUser(Retain(before, e.userId), e);
      case Dequeue =>
      case Remove(user) =>
        RetainSorted(before, user);
        RetainOnePerUser(before, user);
      case Clear =>
    }
  }

  lemma {:induction false} ByPriorityEmpty(p: nat)
    ensures ByPriority([], p) == []
  {
    if p > 0 {
      ByPriorityEmpty(p - 1);
    }
  }

  /** The users still waiting after `ops`, sorted by priority and then by arrival. */
  function SortedLog(ops: seq<QueueOp>): seq<QueueEntry> {
    ByPriority(WaitLog(History(ops)), 255)
  }

  lemma {:induction false} QueueFollowsLog(ops: seq<QueueOp>)
    ensures QueueAfter(ops) == SortedLog(ops)
  {
    if ops == [] {
      ByPriorityEmpty(255);
    } else {
      var before, op := ops[..|ops| - 1], ops[|ops| - 1];
      var q, log := QueueAfter(before), WaitLog(History(before));
      QueueFollowsLog(before);
      WaitLogSnoc(History(before), Observed(q, op));
      match op
      case Enqueue(e) =>
        ByPriorityRetain(log, 255, e.userId);
        ByPriorityInsert(Retain(log, e.userId), Retain(log, e.userId) + [e], e, 255);
      case Dequeue =>
        if q != [] {
          OnePerUserAfter(before);
          ByPriorityRetain(log, 255, q[0].userId);
          RetainAbsent(q[1..], q[0].userId);
        }
      case Remove(user) =>
        ByPriorityRetain(log, 255, user);
      case Clear =>
        ByPriorityEmpty(255);
    }
  }

  lemma {:induction false} HistoryAt(ops: seq<QueueOp>, k: nat)
    requires k < |ops|
    ensures |History(ops)| == |ops| && History(ops)[k] == Observed(QueueAfter(ops[..k]), ops[k])
  {
    hide Observed, QueueAfter;
    var before := ops[..|ops| - 1];
    if before != [] {
      HistoryAt(before, if k < |before| then k else 0);
    }
    assert k < |before| ==> before[..k] == ops[..k];
  }

  /** Operation `k` did what the sorted log says: a `Dequeue` served the user at its top. */
  predicate FollowsLog(ops: seq<QueueOp>, k: nat)
    requires k < |ops|
  {
    k < |History(ops)| && History(ops)[k] == Observed(SortedLog(ops[..k]), ops[k])
  }

  /**
   * After any operations the queue is the bucket sort of the log of the users still waiting, and everything in the
   * history, so also whom each `Dequeue` served, is what the log sorted just before says.
   */
  lemma QueueIsSortedLog(ops: seq<QueueOp>)
    ensures QueueAfter(ops) == SortedLog(ops)
    ensures forall k :: 0 <= k < |ops| ==> FollowsLog(ops, k)
  {
    QueueFollowsLog(ops);
    forall k | 0 <= k < |ops| ensures FollowsLog(ops, k) {
      HistoryAt(ops, k);
      QueueFollowsLog(ops[..k]);
    }
  }
}
