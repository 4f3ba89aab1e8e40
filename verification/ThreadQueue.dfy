/**
 * mqtt::thread_queue as a step system. A step is what a thread does under the lock, up to a wait or to the unlock
 * that precedes a notification; the notification is a step of its own. Waiting threads may wake up spuriously.
 */
module ThreadQueue {
  import opened Wrappers

  /** Where a thread stands; n is the size it read before it waited. */
  datatype Phase<T> =
    | Ready
    | PutBlocked(val: T, n: nat) | PutWoken(val: T, n: nat) | NotifyNotEmpty
    | GetBlocked(n: nat) | GetWoken(n: nat) | NotifyNotFull

  /** cap is None for the default capacity, which no real queue reaches. */
  datatype Queue<T> = Queue(
    que: seq<T>, cap: Option<nat>, threads: seq<Phase<T>>,
    // The history: everything put, and everything taken.
    put: seq<T>, taken: seq<T>)

  datatype Action<T> =
    | PutBegin(t: nat, val: T) | PutResume(t: nat) | WakePut(t: nat)
    | GetBegin(t: nat) | GetResume(t: nat) | WakeGet(t: nat)
    | TryGet(t: nat)
    | TellNotEmpty(t: nat, woken: Option<nat>) | TellNotFull(t: nat, woken: Option<nat>)
    | SetCapacity(t: nat, cap: Option<nat>)

  predicate HasRoom<T>(q: Queue<T>) {
    q.cap.None? || |q.que| < q.cap.value
  }

  ghost predicate NobodyGetBlocked<T>(q: Queue<T>) {
    forall w :: 0 <= w < |q.threads| ==> !q.threads[w].GetBlocked?
  }

  ghost predicate NobodyPutBlocked<T>(q: Queue<T>) {
    forall w :: 0 <= w < |q.threads| ==> !q.threads[w].PutBlocked?
  }

  /** Only the first consumers threads call the blocking get. notify_one wakes any one blocked thread, if any. */
  ghost predicate Enabled<T>(q: Queue<T>, consumers: nat, a: Action<T>) {
    && a.t < |q.threads|
    && var me := q.threads[a.t];
       match a
       case PutBegin(_, _) => me.Ready?
       case PutResume(_) => me.PutWoken?
       case WakePut(_) => me.PutBlocked?
       case GetBegin(t) => me.Ready? && t < consumers
       case GetResume(_) => me.GetWoken?
       case WakeGet(_) => me.GetBlocked?
       case TryGet(_) => me.Ready?
       case TellNotEmpty(_, None) => me.NotifyNotEmpty? && NobodyGetBlocked(q)
       case TellNotEmpty(_, Some(w)) => me.NotifyNotEmpty? && w < |q.threads| && q.threads[w].GetBlocked?
       case TellNotFull(_, None) => me.NotifyNotFull? && NobodyPutBlocked(q)
       case TellNotFull(_, Some(w)) => me.NotifyNotFull? && w < |q.threads| && q.threads[w].PutBlocked?
       case SetCapacity(_, _) => me.Ready?
  }

  function Goto<T>(q: Queue<T>, t: nat, phase: Phase<T>): Queue<T>
    requires t < |q.threads|
  {
    q.(threads := q.threads[t := phase])
  }

  /** The end of a put: the item goes in, and the thread leaves to notify if the size it read was 0. */
  function Push<T>(q: Queue<T>, t: nat, val: T, n: nat): Queue<T>
    requires t < |q.threads|
  {
    Goto(q.(que := q.que + [val], put := q.put + [val]), t, if n == 0 then NotifyNotEmpty else Ready)
  }

  /** The end of a get: the front goes out, and the thread leaves to notify if the size it read was the capacity. */
  function Pop<T>(q: Queue<T>, t: nat, n: nat): Queue<T>
    requires t < |q.threads| && q.que != []
  {
    Goto(q.(que := q.que[1..], taken := q.taken + [q.que[0]]), t, if q.cap == Some(n) then NotifyNotFull else Ready)
  }

  ghost function Apply<T>(q: Queue<T>, consumers: nat, a: Action<T>): Queue<T>
    requires Enabled(q, consumers, a)
  {
    var me := q.threads[a.t];
    match a
    case PutBegin(t, val) =>
      if HasRoom(q) then Push(q, t, val, |q.que|) else Goto(q, t, PutBlocked(val, |q.que|))
    case PutResume(t) =>
      if HasRoom(q) then Push(q, t, me.val, me.n) else Goto(q, t, PutBlocked(me.val, me.n))
    case WakePut(t) => Goto(q, t, PutWoken(me.val, me.n))
    case GetBegin(t) => if q.que == [] then Goto(q, t, GetBlocked(0)) else Pop(q, t, |q.que|)
    case GetResume(t) => if q.que == [] then Goto(q, t, GetBlocked(me.n)) else Pop(q, t, me.n)
    case WakeGet(t) => Goto(q, t, GetWoken(me.n))
    case TryGet(t) => if q.que == [] then q else Pop(q, t, |q.que|)
    case TellNotEmpty(t, woken) => Goto(if woken.Some? then WakeGetter(q, woken.value) else q, t, Ready)
    case TellNotFull(t, woken) => Goto(if woken.Some? then WakePutter(q, woken.value) else q, t, Ready)
    case SetCapacity(t, cap) => q.(cap := cap)
  }

  function WakeGetter<T>(q: Queue<T>, w: nat): Queue<T>
    requires w < |q.threads| && q.threads[w].GetBlocked?
  {
    Goto(q, w, GetWoken(q.threads[w].n))
  }

  function WakePutter<T>(q: Queue<T>, w: nat): Queue<T>
    requires w < |q.threads| && q.threads[w].PutBlocked?
  {
    Goto(q, w, PutWoken(q.threads[w].val, q.threads[w].n))
  }

  function Empty<T>(cap: Option<nat>, threads: nat): Queue<T> {
    Queue([], cap, seq(threads, _ => Ready), [], [])
  }

  /** Reached in n steps; resizable tells whether capacity(cap) may be called on the way. */
  ghost predicate ReachedIn<T(!new)>(cap: Option<nat>, threads: nat, consumers: nat, resizable: bool, n: nat, q: Queue<T>)
    decreases n
  {
    if n == 0 then q == Empty(cap, threads)
    else exists p: Queue<T>, a: Action<T> ::
      && ReachedIn(cap, threads, consumers, resizable, n - 1, p)
      && Enabled(p, consumers, a) && (a.SetCapacity? ==> resizable)
      && Apply(p, consumers, a) == q
  }

  ghost predicate Reachable<T(!new)>(cap: Option<nat>, threads: nat, consumers: nat, resizable: bool, q: Queue<T>) {
    exists n: nat :: ReachedIn(cap, threads, consumers, resizable, n, q)
  }

  lemma ReachStep<T(!new)>(cap: Option<nat>, threads: nat, consumers: nat, resizable: bool, p: Queue<T>, a: Action<T>)
    requires Reachable(cap, threads, consumers, resizable, p)
    requires Enabled(p, consumers, a) && (a.SetCapacity? ==> resizable)
    ensures Reachable(cap, threads, consumers, resizable, Apply(p, consumers, a))
  {
    var n: nat :| ReachedIn(cap, threads, consumers, resizable, n, p);
    assert ReachedIn(cap, threads, consumers, resizable, n + 1, Apply(p, consumers, a));
  }

  lemma LastStep<T(!new)>(cap: Option<nat>, threads: nat, consumers: nat, resizable: bool, n: nat, q: Queue<T>)
    returns (p: Queue<T>, a: Action<T>)
    requires n != 0 && ReachedIn(cap, threads, consumers, resizable, n, q)
    ensures ReachedIn(cap, threads, consumers, resizable, n - 1, p)
    ensures Enabled(p, consumers, a) && (a.SetCapacity? ==> resizable) && Apply(p, consumers, a) == q
  {
    p, a :|
      && ReachedIn(cap, threads, consumers, resizable, n - 1, p)
      && Enabled(p, consumers, a) && (a.SetCapacity? ==> resizable)
      && Apply(p, consumers, a) == q;
  }

  // ----- Conservation and bound -----

  ghost predicate Conserved<T>(q: Queue<T>) {
    q.taken + q.que == q.put
  }

  lemma StepConserves<T>(q: Queue<T>, consumers: nat, a: Action<T>)
    requires Conserved(q) && Enabled(q, consumers, a)
    ensures Conserved(Apply(q, consumers, a))
  {
    if q.que != [] {
      assert (q.taken + [q.que[0]]) + q.que[1..] == q.taken + q.que;
    }
    forall val: T
      ensures q.taken + (q.que + [val]) == q.put + [val]
    {
      assert q.taken + (q.que + [val]) == (q.taken + q.que) + [val];
    }
  }

  lemma EmptyConserves<T>(cap: Option<nat>, threads: nat)
    ensures Conserved(Empty<T>(cap, threads))
  {
  }

  lemma AtTheStart<T(!new)>(cap: Option<nat>, threads: nat, consumers: nat, resizable: bool, q: Queue<T>)
    requires ReachedIn(cap, threads, consumers, resizable, 0, q)
    ensures q == Empty(cap, threads)
  {
  }

  /** Whatever the threads do, the items taken followed by the items held are the items put, in order. */
  lemma {:induction false} QueueConserves<T(!new)>(cap: Option<nat>, threads: nat, consumers: nat, resizable: bool, n: nat, q: Queue<T>)
    requires ReachedIn(cap, threads, consumers, resizable, n, q)
    ensures Conserved(q)
    decreases n
  {
    hide ReachedIn, Apply, Enabled, Conserved, Empty;
    if n == 0 {
      AtTheStart(cap, threads, consumers, resizable, q);
      EmptyConserves<T>(cap, threads);
    } else {
      var p, a := LastStep(cap, threads, consumers, resizable, n, q);
      QueueConserves(cap, threads, consumers, resizable, n - 1, p);
      StepConserves(p, consumers, a);
    }
  }

  ghost predicate WithinCapacity<T>(cap: Option<nat>, q: Queue<T>) {
    q.cap == cap && (cap.Some? ==> |q.que| <= cap.value)
  }

  lemma StepKeepsBound<T>(cap: Option<nat>, q: Queue<T>, consumers: nat, a: Action<T>)
    requires WithinCapacity(cap, q) && Enabled(q, consumers, a) && !a.SetCapacity?
    ensures WithinCapacity(cap, Apply(q, consumers, a))
  {
  }

  /** With a fixed capacity the size never exceeds it. */
  lemma {:induction false} FixedCapacityBounds<T(!new)>(cap: Option<nat>, threads: nat, consumers: nat, n: nat, q: Queue<T>)
    requires ReachedIn(cap, threads, consumers, false, n, q)
    ensures WithinCapacity(cap, q)
    decreases n
  {
    hide ReachedIn, Apply, Enabled;
    if n == 0 {
      AtTheStart(cap, threads, consumers, false, q);
    } else {
      var p, a := LastStep(cap, threads, consumers, false, n, q);
      FixedCapacityBounds(cap, threads, consumers, n - 1, p);
      StepKeepsBound(cap, p, consumers, a);
    }
  }

  lemma StepKeepsThreads<T>(q: Queue<T>, consumers: nat, a: Action<T>)
    requires Enabled(q, consumers, a)
    ensures |Apply(q, consumers, a).threads| == |q.threads|
  {
  }

  lemma {:induction false} ThreadsStay<T(!new)>(cap: Option<nat>, threads: nat, consumers: nat, n: nat, q: Queue<T>)
    requires ReachedIn(cap, threads, consumers, false, n, q)
    ensures |q.threads| == threads
    decreases n
  {
    hide ReachedIn, Apply, Enabled;
    if n == 0 {
      AtTheStart(cap, threads, consumers, false, q);
    } else {
      var p, a := LastStep(cap, threads, consumers, false, n, q);
      ThreadsStay(cap, threads, consumers, n - 1, p);
      StepKeepsThreads(p, consumers, a);
    }
  }

  // ----- Lost wakeups -----

  ghost predicate NotificationPending<T>(q: Queue<T>) {
    exists p :: 0 <= p < |q.threads| && q.threads[p].NotifyNotEmpty?
  }

  ghost predicate SomebodyGetWoken<T>(q: Queue<T>) {
    exists p :: 0 <= p < |q.threads| && q.threads[p].GetWoken?
  }

  /** A consumer sleeps on a queue that has items, nobody is about to wake it, and nobody is about to take them. */
  ghost predicate LostWakeup<T>(q: Queue<T>) {
    q.que != [] && !NobodyGetBlocked(q) && !NotificationPending(q) && !SomebodyGetWoken(q)
  }

  /** Nobody waits for room, and only consumers wait for items. */
  ghost predicate OnlyConsumersWait<T>(q: Queue<T>, consumers: nat) {
    && q.cap.None?
    && (forall p :: 0 <= p < |q.threads| ==> !q.threads[p].PutBlocked? && !q.threads[p].PutWoken?)
    && (forall p :: consumers <= p < |q.threads| ==> !q.threads[p].GetBlocked? && !q.threads[p].GetWoken?)
  }

  lemma {:induction false} NobodyWaitsForRoom<T(!new)>(threads: nat, consumers: nat, n: nat, q: Queue<T>)
    requires ReachedIn(None, threads, consumers, false, n, q)
    ensures OnlyConsumersWait(q, consumers)
    decreases n
  {
    hide ReachedIn, Apply, Enabled, OnlyConsumersWait;
    if n == 0 {
      AtTheStart(None, threads, consumers, false, q);
      NobodyWaitsAtTheStart<T>(threads, consumers);
    } else {
      var p, a := LastStep(None, threads, consumers, false, n, q);
      NobodyWaitsForRoom(threads, consumers, n - 1, p);
      StepKeepsWaiters(p, consumers, a);
    }
  }

  lemma StepKeepsWaiters<T>(q: Queue<T>, consumers: nat, a: Action<T>)
    requires OnlyConsumersWait(q, consumers) && Enabled(q, consumers, a) && !a.SetCapacity?
    ensures OnlyConsumersWait(Apply(q, consumers, a), consumers)
  {
  }

  /** A consumer that sleeps on items has a notification coming. */
  ghost predicate SleeperNotified<T>(q: Queue<T>) {
    q.que != [] && !NobodyGetBlocked(q) ==> NotificationPending(q)
  }

  /** Every step but its own keeps a pending notification pending. */
  lemma NotificationStays<T>(q: Queue<T>, consumers: nat, a: Action<T>, p: nat)
    requires Enabled(q, consumers, a) && p < |q.threads| && q.threads[p].NotifyNotEmpty? && a.t != p
    ensures NotificationPending(Apply(q, consumers, a))
  {
    assert Apply(q, consumers, a).threads[p].NotifyNotEmpty?;
  }

  lemma StepKeepsNotified<T>(q: Queue<T>, consumers: nat, a: Action<T>)
    requires consumers <= 1 || |q.threads| <= 2
    requires OnlyConsumersWait(q, consumers) && SleeperNotified(q)
    requires Enabled(q, consumers, a) && !a.SetCapacity?
    ensures SleeperNotified(Apply(q, consumers, a))
  {
    var t := Apply(q, consumers, a);
    if a.PutBegin? && q.que == [] {
      assert t.threads[a.t].NotifyNotEmpty?;
    } else if NotificationPending(q) {
      var p :| 0 <= p < |q.threads| && q.threads[p].NotifyNotEmpty?;
      if a.t != p {
        NotificationStays(q, consumers, a, p);
      } else {
        assert NobodyGetBlocked(t);
      }
    }
  }

  /** Without capacity, and with one consumer or with two threads, a consumer that sleeps on items will be notified. */
  lemma {:induction false} UnboundedLosesNone<T(!new)>(threads: nat, consumers: nat, n: nat, q: Queue<T>)
    requires consumers <= 1 || threads <= 2
    requires ReachedIn(None, threads, consumers, false, n, q)
    ensures OnlyConsumersWait(q, consumers) && SleeperNotified(q)
    decreases n
  {
    hide ReachedIn, Apply, Enabled, OnlyConsumersWait, SleeperNotified;
    NobodyWaitsForRoom(threads, consumers, n, q);
    if n == 0 {
      AtTheStart(None, threads, consumers, false, q);
      NobodyWaitsAtTheStart<T>(threads, consumers);
    } else {
      var p, a := LastStep(None, threads, consumers, false, n, q);
      UnboundedLosesNone(threads, consumers, n - 1, p);
      ThreadsStay(None, threads, consumers, n - 1, p);
      StepKeepsNotified(p, consumers, a);
    }
  }

  lemma NobodyWaitsAtTheStart<T>(threads: nat, consumers: nat)
    ensures OnlyConsumersWait(Empty<T>(None, threads), consumers) && SleeperNotified(Empty<T>(None, threads))
  {
  }

  ghost predicate NobodySleeps<T>(q: Queue<T>) {
    forall p :: 0 <= p < |q.threads| ==> !q.threads[p].GetBlocked? && !q.threads[p].GetWoken?
  }

  lemma StepWithoutConsumer<T>(q: Queue<T>, a: Action<T>)
    requires NobodySleeps(q) && Enabled(q, 0, a)
    ensures NobodySleeps(Apply(q, 0, a))
  {
  }

  lemma NobodySleepsAtTheStart<T>(cap: Option<nat>, threads: nat)
    ensures NobodySleeps(Empty<T>(cap, threads))
  {
  }

  /** Without consumers nobody sleeps in get, whatever the capacity. */
  lemma {:induction false} NoConsumerNoSleeper<T(!new)>(cap: Option<nat>, threads: nat, resizable: bool, n: nat, q: Queue<T>)
    requires ReachedIn(cap, threads, 0, resizable, n, q)
    ensures NobodySleeps(q)
    decreases n
  {
    hide ReachedIn, Apply, Enabled, NobodySleeps;
    if n == 0 {
      AtTheStart(cap, threads, 0, resizable, q);
      NobodySleepsAtTheStart<T>(cap, threads);
    } else {
      var p, a := LastStep(cap, threads, 0, resizable, n, q);
      NoConsumerNoSleeper(cap, threads, resizable, n - 1, p);
      StepWithoutConsumer(p, a);
    }
  }

  /** A thread on its own waits for items only on an empty queue, and for room only on a full one. */
  ghost predicate WaitsAlone<T>(q: Queue<T>) {
    && |q.threads| <= 1
    && forall p :: 0 <= p < |q.threads| ==>
         && (q.threads[p].GetBlocked? || q.threads[p].GetWoken? ==> q.que == [])
         && (q.threads[p].PutBlocked? || q.threads[p].PutWoken? ==> !HasRoom(q))
  }

  lemma StepAlone<T>(q: Queue<T>, consumers: nat, a: Action<T>)
    requires WaitsAlone(q) && Enabled(q, consumers, a)
    ensures WaitsAlone(Apply(q, consumers, a))
  {
  }

  lemma AloneAtTheStart<T>(cap: Option<nat>, threads: nat)
    requires threads <= 1
    ensures WaitsAlone(Empty<T>(cap, threads))
  {
  }

  lemma {:induction false} OneThreadLosesNone<T(!new)>(cap: Option<nat>, threads: nat, consumers: nat, resizable: bool,
                                                       n: nat, q: Queue<T>)
    requires threads <= 1 && ReachedIn(cap, threads, consumers, resizable, n, q)
    ensures WaitsAlone(q)
    decreases n
  {
    hide ReachedIn, Apply, Enabled, WaitsAlone;
    if n == 0 {
      AtTheStart(cap, threads, consumers, resizable, q);
      AloneAtTheStart<T>(cap, threads);
    } else {
      var p, a := LastStep(cap, threads, consumers, resizable, n, q);
      OneThreadLosesNone(cap, threads, consumers, resizable, n - 1, p);
      StepAlone(p, consumers, a);
    }
  }

  // ----- Lost wakeups of producers -----

  ghost predicate RoomPending<T>(q: Queue<T>) {
    exists p :: 0 <= p < |q.threads| && q.threads[p].NotifyNotFull?
  }

  ghost predicate SomebodyPutWoken<T>(q: Queue<T>) {
    exists p :: 0 <= p < |q.threads| && q.threads[p].PutWoken?
  }

  /** A producer sleeps on a queue that has room, nobody is about to wake it, and nobody is about to use the room. */
  ghost predicate LostNotFull<T>(q: Queue<T>) {
    HasRoom(q) && !NobodyPutBlocked(q) && !RoomPending(q) && !SomebodyPutWoken(q)
  }

  /** Producers and consumers sleep on an empty queue that has room, and every other thread is ready. */
  ghost predicate Deadlock<T>(q: Queue<T>) {
    && q.que == [] && HasRoom(q)
    && !NobodyGetBlocked(q) && !NobodyPutBlocked(q)
    && forall p :: 0 <= p < |q.threads| ==> q.threads[p].GetBlocked? || q.threads[p].PutBlocked? || q.threads[p].Ready?
  }

  ghost predicate SleepingProducerNotified<T>(q: Queue<T>) {
    HasRoom(q) && !NobodyPutBlocked(q) ==> RoomPending(q) || (q.cap == Some(1) && SomebodyPutWoken(q))
  }

  /** Every step but its own keeps the notification of a free place pending. */
  lemma RoomNotificationStays<T>(q: Queue<T>, consumers: nat, a: Action<T>, p: nat)
    requires Enabled(q, consumers, a) && p < |q.threads| && q.threads[p].NotifyNotFull? && a.t != p
    ensures RoomPending(Apply(q, consumers, a))
  {
    assert Apply(q, consumers, a).threads[p].NotifyNotFull?;
  }

  /** Likewise a producer that has been woken. */
  lemma WokenStays<T>(q: Queue<T>, consumers: nat, a: Action<T>, p: nat)
    requires Enabled(q, consumers, a) && p < |q.threads| && q.threads[p].PutWoken? && a.t != p
    ensures SomebodyPutWoken(Apply(q, consumers, a))
  {
    assert Apply(q, consumers, a).threads[p].PutWoken?;
  }

  lemma StepKeepsProducersNotified<T>(q: Queue<T>, a: Action<T>)
    requires q.cap == Some(1) || |q.threads| <= 2
    requires WithinCapacity(q.cap, q) && NobodySleeps(q) && SleepingProducerNotified(q)
    requires Enabled(q, 0, a) && !a.SetCapacity?
    ensures SleepingProducerNotified(Apply(q, 0, a))
  {
    var t := Apply(q, 0, a);
    if HasRoom(t) && !NobodyPutBlocked(t) {
      if a.TryGet? && !HasRoom(q) {
        assert t.threads[a.t].NotifyNotFull?;
      } else if a.WakePut? {
        assert t.threads[a.t].PutWoken?;
      } else if a.TellNotFull? && a.woken.Some? {
        assert t.threads[a.woken.value].PutWoken?;
      }
      if RoomPending(q) {
        var p :| 0 <= p < |q.threads| && q.threads[p].NotifyNotFull?;
        if a.t != p {
          RoomNotificationStays(q, 0, a, p);
        }
      } else if SomebodyPutWoken(q) {
        var p :| 0 <= p < |q.threads| && q.threads[p].PutWoken?;
        if a.t != p {
          WokenStays(q, 0, a, p);
        }
      }
    }
  }

  lemma ProducersAtTheStart<T>(cap: Option<nat>, threads: nat)
    ensures SleepingProducerNotified(Empty<T>(cap, threads))
  {
  }

  /** With try_get as the only way out, and one place or two threads, a producer that sleeps on room is looked after. */
  lemma {:induction false} TryGetLosesNone<T(!new)>(cap: Option<nat>, threads: nat, n: nat, q: Queue<T>)
    requires cap == Some(1) || threads <= 2
    requires ReachedIn(cap, threads, 0, false, n, q)
    ensures SleepingProducerNotified(q)
    decreases n
  {
    hide ReachedIn, Apply, Enabled, SleepingProducerNotified, NobodySleeps;
    if n == 0 {
      AtTheStart(cap, threads, 0, false, q);
      ProducersAtTheStart<T>(cap, threads);
    } else {
      var p, a := LastStep(cap, threads, 0, false, n, q);
      TryGetLosesNone(cap, threads, n - 1, p);
      ThreadsStay(cap, threads, 0, n - 1, p);
      FixedCapacityBounds(cap, threads, 0, n - 1, p);
      NoConsumerNoSleeper(cap, threads, false, n - 1, p);
      StepKeepsProducersNotified(p, a);
    }
  }

  // ----- Runs that do lose a wakeup -----

  function Copies<T>(x: T, n: nat): seq<T> {
    seq(n, _ => x)
  }

  /** Every thread is ready, n copies of x are held after taken others went through. */
  function Holding<T>(cap: Option<nat>, threads: nat, x: T, taken: nat, held: nat): Queue<T> {
    Queue(Copies(x, held), cap, seq(threads, _ => Ready), Copies(x, taken + held), Copies(x, taken))
  }

  lemma PutOne<T>(cap: Option<nat>, threads: nat, consumers: nat, producer: nat, x: T, held: nat)
    requires producer < threads && (cap.Some? ==> held < cap.value)
    ensures var p := Holding(cap, threads, x, 0, held);
            var a, b := PutBegin(producer, x), TellNotEmpty(producer, None);
            && Enabled(p, consumers, a)
            && if held == 0
               then Enabled(Apply(p, consumers, a), consumers, b)
                    && Apply(Apply(p, consumers, a), consumers, b) == Holding(cap, threads, x, 0, 1)
               else Apply(p, consumers, a) == Holding(cap, threads, x, 0, held + 1)
  {
    var p := Holding(cap, threads, x, 0, held);
    assert p.que + [x] == Copies(x, held + 1) && p.put + [x] == Copies(x, held + 1);
    var q := Apply(p, consumers, PutBegin(producer, x));
    if held == 0 {
      assert q.threads[producer := Ready] == seq(threads, _ => Ready);
    } else {
      assert q.threads == seq(threads, _ => Ready);
    }
  }

  lemma EmptyIsReached<T(!new)>(cap: Option<nat>, threads: nat, consumers: nat, x: T)
    ensures Reachable(cap, threads, consumers, false, Holding(cap, threads, x, 0, 0))
  {
    assert Holding(cap, threads, x, 0, 0) == Empty(cap, threads);
    assert ReachedIn(cap, threads, consumers, false, 0, Empty<T>(cap, threads));
  }

  /** One producer can fill the queue up to its capacity. */
  lemma {:induction false} Fill<T(!new)>(cap: Option<nat>, threads: nat, consumers: nat, producer: nat, x: T, held: nat)
    requires producer < threads && (cap.Some? ==> held <= cap.value)
    ensures Reachable(cap, threads, consumers, false, Holding(cap, threads, x, 0, held))
    decreases held
  {
    hide *;
    if held == 0 {
      EmptyIsReached(cap, threads, consumers, x);
    } else {
      Fill(cap, threads, consumers, producer, x, held - 1);
      var p := Holding(cap, threads, x, 0, held - 1);
      var a := PutBegin(producer, x);
      PutOne(cap, threads, consumers, producer, x, held - 1);
      ReachStep(cap, threads, consumers, false, p, a);
      if held == 1 {
        ReachStep(cap, threads, consumers, false, Apply(p, consumers, a), TellNotEmpty(producer, None));
      }
    }
  }

  /** The last thread, a producer, stands at phase since it met a full queue, and k of the c items have been taken. */
  function Late<T>(c: nat, threads: nat, x: T, phase: Phase<T>, k: nat): Queue<T>
    requires k <= c
  {
    Queue(Copies(x, c - k), Some(c), seq(threads, i => if i == threads - 1 then phase else Ready),
          Copies(x, c), Copies(x, k))
  }

  lemma FirstTake<T(!new)>(c: nat, threads: nat, consumers: nat, x: T)
    requires 0 < consumers && 1 < threads && 0 < c
    ensures Reachable(Some(c), threads, consumers, false, Late(c, threads, x, PutWoken(x, c), 1))
  {
    hide Reachable, ReachedIn;
    var producer := threads - 1;
    var p := Holding(Some(c), threads, x, 0, c);
    Fill(Some(c), threads, consumers, producer, x, c);
    var blocked := Apply(p, consumers, PutBegin(producer, x));
    ReachStep(Some(c), threads, consumers, false, p, PutBegin(producer, x));
    var taken := Apply(blocked, consumers, GetBegin(0));
    ReachStep(Some(c), threads, consumers, false, blocked, GetBegin(0));
    var told := Apply(taken, consumers, TellNotFull(0, Some(producer)));
    ReachStep(Some(c), threads, consumers, false, taken, TellNotFull(0, Some(producer)));
    var late := Late(c, threads, x, PutWoken(x, c), 1);
    assert told.que == late.que && told.taken == late.taken && told.threads == late.threads;
  }

  lemma {:induction false} LaterTakes<T(!new)>(c: nat, threads: nat, consumers: nat, x: T, phase: Phase<T>, k: nat)
    requires 0 < consumers && 1 < threads && 0 < k <= c
    requires Reachable(Some(c), threads, consumers, false, Late(c, threads, x, phase, 1))
    ensures Reachable(Some(c), threads, consumers, false, Late(c, threads, x, phase, k))
    decreases k
  {
    hide Reachable, ReachedIn;
    if k == 1 {
    } else {
      LaterTakes(c, threads, consumers, x, phase, k - 1);
      var p, late := Late(c, threads, x, phase, k - 1), Late(c, threads, x, phase, k);
      ReachStep(Some(c), threads, consumers, false, p, GetBegin(0));
      var q := Apply(p, consumers, GetBegin(0));
      assert q.que == late.que && q.taken == late.taken && q.threads == late.threads;
    }
  }

  /** With any finite capacity one producer and one consumer can lose a wakeup. */
  lemma FiniteCapacityLoses<T(!new)>(c: nat, threads: nat, consumers: nat, x: T) returns (q: Queue<T>)
    requires 0 < consumers && 1 < threads && 0 < c
    ensures Reachable(Some(c), threads, consumers, false, q) && LostWakeup(q)
  {
    hide Reachable, ReachedIn;
    var producer := threads - 1;
    FirstTake(c, threads, consumers, x);
    LaterTakes(c, threads, consumers, x, PutWoken(x, c), c);
    var p := Late(c, threads, x, PutWoken(x, c), c);
    ReachStep(Some(c), threads, consumers, false, p, GetBegin(0));
    var asleep := Apply(p, consumers, GetBegin(0));
    ReachStep(Some(c), threads, consumers, false, asleep, PutResume(producer));
    q := Apply(asleep, consumers, PutResume(producer));
    assert q.threads[0].GetBlocked?;
  }

  /** With two consumers and a third thread a wakeup can be lost without a capacity: two items, one notification. */
  lemma TwoConsumersLose<T(!new)>(threads: nat, consumers: nat, x: T) returns (q: Queue<T>)
    requires 1 < consumers && 2 < threads
    ensures Reachable(None, threads, consumers, false, q) && LostWakeup(q)
  {
    hide Reachable, ReachedIn;
    var producer := threads - 1;
    Fill(None, threads, consumers, producer, x, 0);
    var p0 := Holding(None, threads, x, 0, 0);
    ReachStep(None, threads, consumers, false, p0, GetBegin(0));
    var p1 := Apply(p0, consumers, GetBegin(0));
    ReachStep(None, threads, consumers, false, p1, GetBegin(1));
    var p2 := Apply(p1, consumers, GetBegin(1));
    ReachStep(None, threads, consumers, false, p2, PutBegin(producer, x));
    var p3 := Apply(p2, consumers, PutBegin(producer, x));
    ReachStep(None, threads, consumers, false, p3, TellNotEmpty(producer, Some(0)));
    var p4 := Apply(p3, consumers, TellNotEmpty(producer, Some(0)));
    ReachStep(None, threads, consumers, false, p4, PutBegin(producer, x));
    var p5 := Apply(p4, consumers, PutBegin(producer, x));
    ReachStep(None, threads, consumers, false, p5, GetResume(0));
    q := Apply(p5, consumers, GetResume(0));
    assert q.threads[1].GetBlocked?;
  }

  /**
   * For a capacity that is never changed, some interleaving loses the wakeup of a consumer exactly when there are a
   * consumer and another thread, and either a non-zero finite capacity or a second consumer and a third thread. (A
   * capacity of zero lets nothing in.)
   */
  lemma LostWakeupExactly<T(!new)>(cap: Option<nat>, threads: nat, consumers: nat, x: T)
    ensures (exists q: Queue<T> :: Reachable(cap, threads, consumers, false, q) && LostWakeup(q))
            <==> && 0 < consumers && 1 < threads && cap != Some(0)
                 && (cap.Some? || (1 < consumers && 2 < threads))
  {
    if 0 < consumers && 1 < threads && cap != Some(0) && (cap.Some? || (1 < consumers && 2 < threads)) {
      if cap.Some? {
        var q := FiniteCapacityLoses(cap.value, threads, consumers, x);
      } else {
        var q := TwoConsumersLose(threads, consumers, x);
      }
    } else {
      forall q: Queue<T> | Reachable(cap, threads, consumers, false, q)
        ensures !LostWakeup(q)
      {
        var n: nat :| ReachedIn(cap, threads, consumers, false, n, q);
        FixedCapacityBounds(cap, threads, consumers, n, q);
        if consumers == 0 {
          NoConsumerNoSleeper(cap, threads, false, n, q);
        } else if threads <= 1 {
          OneThreadLosesNone(cap, threads, consumers, false, n, q);
        } else if cap.None? {
          UnboundedLosesNone(threads, consumers, n, q);
        }
      }
    }
  }

  // ----- Runs that leave a producer asleep -----

  /** The first consumer, woken early, still remembers the empty queue it met, while held items have come in. */
  function Early<T>(c: nat, threads: nat, x: T, held: nat): Queue<T> {
    Queue(Copies(x, held), Some(c), seq(threads, i => if i == 0 then GetWoken(0) else Ready), Copies(x, held), [])
  }

  lemma FirstPut<T(!new)>(c: nat, threads: nat, consumers: nat, x: T)
    requires 0 < consumers && 1 < threads && 0 < c
    ensures Reachable(Some(c), threads, consumers, false, Early(c, threads, x, 1))
  {
    hide Reachable, ReachedIn;
    var producer := threads - 1;
    var p := Holding(Some(c), threads, x, 0, 0);
    EmptyIsReached(Some(c), threads, consumers, x);
    ReachStep(Some(c), threads, consumers, false, p, GetBegin(0));
    var asleep := Apply(p, consumers, GetBegin(0));
    ReachStep(Some(c), threads, consumers, false, asleep, PutBegin(producer, x));
    var held := Apply(asleep, consumers, PutBegin(producer, x));
    ReachStep(Some(c), threads, consumers, false, held, TellNotEmpty(producer, Some(0)));
    var told, early := Apply(held, consumers, TellNotEmpty(producer, Some(0))), Early(c, threads, x, 1);
    assert told.que == early.que && told.put == early.put && told.threads == early.threads;
    assert told.taken == early.taken;
  }

  lemma {:induction false} LaterPuts<T(!new)>(c: nat, threads: nat, consumers: nat, x: T, held: nat)
    requires 0 < consumers && 1 < threads && 0 < held <= c
    ensures Reachable(Some(c), threads, consumers, false, Early(c, threads, x, held))
    decreases held
  {
    hide Reachable, ReachedIn;
    if held == 1 {
      FirstPut(c, threads, consumers, x);
    } else {
      LaterPuts(c, threads, consumers, x, held - 1);
      var p, early := Early(c, threads, x, held - 1), Early(c, threads, x, held);
      ReachStep(Some(c), threads, consumers, false, p, PutBegin(threads - 1, x));
      var q := Apply(p, consumers, PutBegin(threads - 1, x));
      assert q.que == early.que && q.put == early.put && q.threads == early.threads;
    }
  }

  /** The consumer takes from a full queue, but tells nobody: the size it read was 0. */
  lemma SilentTake<T(!new)>(c: nat, threads: nat, consumers: nat, x: T)
    requires 0 < consumers && 1 < threads && 0 < c
    ensures Reachable(Some(c), threads, consumers, false, Late(c, threads, x, PutBlocked(x, c), 1))
  {
    hide Reachable, ReachedIn;
    var producer := threads - 1;
    LaterPuts(c, threads, consumers, x, c);
    var p := Early(c, threads, x, c);
    ReachStep(Some(c), threads, consumers, false, p, PutBegin(producer, x));
    var blocked := Apply(p, consumers, PutBegin(producer, x));
    ReachStep(Some(c), threads, consumers, false, blocked, GetResume(0));
    var taken, late := Apply(blocked, consumers, GetResume(0)), Late(c, threads, x, PutBlocked(x, c), 1);
    assert taken.que == late.que && taken.taken == late.taken && taken.threads == late.threads;
  }

  /** With any finite capacity one producer and one consumer can end up asleep, both, on an empty queue. */
  lemma FiniteCapacityDeadlocks<T(!new)>(c: nat, threads: nat, consumers: nat, x: T) returns (q: Queue<T>)
    requires 0 < consumers && 1 < threads && 0 < c
    ensures Reachable(Some(c), threads, consumers, false, q) && Deadlock(q)
  {
    hide Reachable, ReachedIn;
    SilentTake(c, threads, consumers, x);
    LaterTakes(c, threads, consumers, x, PutBlocked(x, c), c);
    var p := Late(c, threads, x, PutBlocked(x, c), c);
    ReachStep(Some(c), threads, consumers, false, p, GetBegin(0));
    q := Apply(p, consumers, GetBegin(0));
    assert q.threads[0].GetBlocked? && q.threads[threads - 1].PutBlocked?;
  }

  /** Two producers wait, try_get makes two places and one notification. */
  lemma TwoProducersLose<T(!new)>(c: nat, threads: nat, consumers: nat, x: T) returns (q: Queue<T>)
    requires 1 < c && 2 < threads
    ensures Reachable(Some(c), threads, consumers, false, q) && LostNotFull(q)
  {
    hide Reachable, ReachedIn;
    var p0 := Holding(Some(c), threads, x, 0, c);
    Fill(Some(c), threads, consumers, 0, x, c);
    ReachStep(Some(c), threads, consumers, false, p0, PutBegin(0, x));
    var p1 := Apply(p0, consumers, PutBegin(0, x));
    ReachStep(Some(c), threads, consumers, false, p1, PutBegin(1, x));
    var p2 := Apply(p1, consumers, PutBegin(1, x));
    ReachStep(Some(c), threads, consumers, false, p2, TryGet(2));
    var p3 := Apply(p2, consumers, TryGet(2));
    ReachStep(Some(c), threads, consumers, false, p3, TellNotFull(2, Some(0)));
    var p4 := Apply(p3, consumers, TellNotFull(2, Some(0)));
    ReachStep(Some(c), threads, consumers, false, p4, TryGet(2));
    var p5 := Apply(p4, consumers, TryGet(2));
    ReachStep(Some(c), threads, consumers, false, p5, PutResume(0));
    q := Apply(p5, consumers, PutResume(0));
    assert q.threads[1].PutBlocked?;
  }

  lemma DeadlockLosesRoom<T>(q: Queue<T>)
    requires Deadlock(q)
    ensures LostNotFull(q) && 1 < |q.threads| && !NobodySleeps(q)
  {
  }

  lemma ProducersLoseNone<T(!new)>(cap: Option<nat>, threads: nat, consumers: nat, q: Queue<T>)
    requires Reachable(cap, threads, consumers, false, q)
    requires cap.Some? && 0 < cap.value ==> (consumers == 0 || threads <= 1) && (cap.value == 1 || threads <= 2)
    ensures !LostNotFull(q)
  {
    var n: nat :| ReachedIn(cap, threads, consumers, false, n, q);
    hide ReachedIn;
    FixedCapacityBounds(cap, threads, consumers, n, q);
    if cap.None? {
      NobodyWaitsForRoom(threads, consumers, n, q);
    } else if threads <= 1 {
      OneThreadLosesNone(cap, threads, consumers, false, n, q);
    } else if cap != Some(0) {
      TryGetLosesNone(cap, threads, n, q);
    }
  }

  /**
   * For a capacity that is never changed, some interleaving leaves a producer asleep beside free room exactly when
   * the capacity is finite and not zero, and there are either a consumer and another thread, or two places and three
   * threads.
   */
  lemma LostNotFullExactly<T(!new)>(cap: Option<nat>, threads: nat, consumers: nat, x: T)
    ensures (exists q: Queue<T> :: Reachable(cap, threads, consumers, false, q) && LostNotFull(q))
            <==> && cap.Some? && 0 < cap.value
                 && ((0 < consumers && 1 < threads) || (1 < cap.value && 2 < threads))
  {
    hide Deadlock, LostNotFull, Reachable;
    if cap.Some? && 0 < cap.value && 0 < consumers && 1 < threads {
      var q := FiniteCapacityDeadlocks(cap.value, threads, consumers, x);
      DeadlockLosesRoom(q);
    } else if cap.Some? && 1 < cap.value && 2 < threads {
      var q := TwoProducersLose(cap.value, threads, consumers, x);
    } else {
      forall q: Queue<T> | Reachable(cap, threads, consumers, false, q)
        ensures !LostNotFull(q)
      {
        ProducersLoseNone(cap, threads, consumers, q);
      }
    }
  }

  /**
   * With a capacity that is never changed, both sides can end up asleep on an empty queue exactly when it is finite
   * and not zero, and there are a consumer and another thread.
   */
  lemma DeadlockExactly<T(!new)>(cap: Option<nat>, threads: nat, consumers: nat, x: T)
    ensures (exists q: Queue<T> :: Reachable(cap, threads, consumers, false, q) && Deadlock(q))
            <==> cap.Some? && 0 < cap.value && 0 < consumers && 1 < threads
  {
    if cap.Some? && 0 < cap.value && 0 < consumers && 1 < threads {
      var q := FiniteCapacityDeadlocks(cap.value, threads, consumers, x);
    } else {
      hide Deadlock;
      forall q: Queue<T> | Reachable(cap, threads, consumers, false, q)
        ensures !Deadlock(q)
      {
        if Deadlock(q) {
          DeadlockLosesRoom(q);
          LostNotFullExactly(cap, threads, consumers, x);
          var n: nat :| ReachedIn(cap, threads, consumers, false, n, q);
          NoConsumerNoSleeper(cap, threads, false, n, q);
          assert false;
        }
      }
    }
  }

  // ----- When the capacity may be changed on the way -----

  lemma ResizedAtTheStart<T(!new)>(cap: Option<nat>, other: Option<nat>, threads: nat, consumers: nat)
    requires 0 < threads
    ensures ReachedIn(cap, threads, consumers, true, 1, Empty<T>(other, threads))
  {
    var p: Queue<T>, a: Action<T> := Empty(cap, threads), SetCapacity(0, other);
    assert ReachedIn(cap, threads, consumers, true, 0, p);
    assert Enabled(p, consumers, a) && Apply(p, consumers, a) == Empty<T>(other, threads);
  }

  lemma NextReached<T(!new)>(cap: Option<nat>, threads: nat, consumers: nat, n: nat, p: Queue<T>, a: Action<T>)
    requires ReachedIn(cap, threads, consumers, true, n, p) && Enabled(p, consumers, a)
    ensures ReachedIn(cap, threads, consumers, true, n + 1, Apply(p, consumers, a))
  {
  }

  /** A run with one capacity becomes a run with any other by setting the capacity first. */
  lemma {:induction false} ResizeFirst<T(!new)>(cap: Option<nat>, other: Option<nat>, threads: nat, consumers: nat,
                                                n: nat, q: Queue<T>)
    requires 0 < threads && ReachedIn(other, threads, consumers, false, n, q)
    ensures ReachedIn(cap, threads, consumers, true, n + 1, q)
    decreases n
  {
    hide ReachedIn, Apply, Enabled;
    if n == 0 {
      AtTheStart(other, threads, consumers, false, q);
      ResizedAtTheStart<T>(cap, other, threads, consumers);
    } else {
      var p, a := LastStep(other, threads, consumers, false, n, q);
      ResizeFirst(cap, other, threads, consumers, n - 1, p);
      NextReached(cap, threads, consumers, n, p, a);
    }
  }

  lemma ReachableResized<T(!new)>(cap: Option<nat>, other: Option<nat>, threads: nat, consumers: nat, q: Queue<T>)
    requires 0 < threads && Reachable(other, threads, consumers, false, q)
    ensures Reachable(cap, threads, consumers, true, q)
  {
    var n: nat :| ReachedIn(other, threads, consumers, false, n, q);
    ResizeFirst(cap, other, threads, consumers, n, q);
  }

  /** Raising the capacity wakes nobody: a producer that met a full queue sleeps on beside any room. */
  lemma ResizingLosesRoom<T(!new)>(cap: Option<nat>, threads: nat, consumers: nat, x: T) returns (q: Queue<T>)
    requires 1 < threads
    ensures Reachable(cap, threads, consumers, true, q) && q.cap.None? && LostNotFull(q)
  {
    var p0 := Empty<T>(Some(0), threads);
    assert Reachable(cap, threads, consumers, true, p0) by {
      ResizedAtTheStart<T>(cap, Some(0), threads, consumers);
    }
    hide Reachable, ReachedIn;
    ReachStep(cap, threads, consumers, true, p0, PutBegin(1, x));
    var p1 := Apply(p0, consumers, PutBegin(1, x));
    ReachStep(cap, threads, consumers, true, p1, SetCapacity(0, None));
    q := Apply(p1, consumers, SetCapacity(0, None));
    assert q.threads[1].PutBlocked?;
  }

  /** When the capacity may change, a producer can stay asleep beside room exactly when there is another thread. */
  lemma ResizedLostNotFullExactly<T(!new)>(cap: Option<nat>, threads: nat, consumers: nat, x: T)
    ensures (exists q: Queue<T> :: Reachable(cap, threads, consumers, true, q) && LostNotFull(q)) <==> 1 < threads
  {
    if 1 < threads {
      var q := ResizingLosesRoom(cap, threads, consumers, x);
    } else {
      forall q: Queue<T> | Reachable(cap, threads, consumers, true, q)
        ensures !LostNotFull(q)
      {
        var n: nat :| ReachedIn(cap, threads, consumers, true, n, q);
        OneThreadLosesNone(cap, threads, consumers, true, n, q);
      }
    }
  }

  lemma SleepsOnItems<T>(q: Queue<T>)
    requires LostWakeup(q)
    ensures !NobodySleeps(q) && !WaitsAlone(q)
  {
  }

  lemma DeadlockSleeps<T>(q: Queue<T>)
    requires Deadlock(q)
    ensures !NobodySleeps(q) && !WaitsAlone(q)
  {
  }

  /** Neither a consumer asleep beside items nor a deadlock is reached without a consumer and another thread. */
  lemma ResizedNeedsTwo<T(!new)>(cap: Option<nat>, threads: nat, consumers: nat, q: Queue<T>)
    requires Reachable(cap, threads, consumers, true, q) && (LostWakeup(q) || Deadlock(q))
    ensures 0 < consumers && 1 < threads
  {
    var n: nat :| ReachedIn(cap, threads, consumers, true, n, q);
    hide ReachedIn, LostWakeup, Deadlock, NobodySleeps, WaitsAlone;
    if LostWakeup(q) {
      SleepsOnItems(q);
    } else {
      DeadlockSleeps(q);
    }
    if consumers == 0 {
      NoConsumerNoSleeper(cap, threads, true, n, q);
    }
    if threads <= 1 {
      OneThreadLosesNone(cap, threads, consumers, true, n, q);
    }
  }

  /** When the capacity may change, a consumer can stay asleep beside items exactly when there is another thread. */
  lemma ResizedLostWakeupExactly<T(!new)>(cap: Option<nat>, threads: nat, consumers: nat, x: T)
    ensures (exists q: Queue<T> :: Reachable(cap, threads, consumers, true, q) && LostWakeup(q))
            <==> 0 < consumers && 1 < threads
  {
    hide LostWakeup, Reachable;
    if 0 < consumers && 1 < threads {
      var q := FiniteCapacityLoses(1, threads, consumers, x);
      ReachableResized(cap, Some(1), threads, consumers, q);
    } else {
      forall q: Queue<T> | Reachable(cap, threads, consumers, true, q)
        ensures !LostWakeup(q)
      {
        if LostWakeup(q) {
          ResizedNeedsTwo(cap, threads, consumers, q);
        }
      }
    }
  }

  /** And likewise both sides can end up asleep on an empty queue. */
  lemma ResizedDeadlockExactly<T(!new)>(cap: Option<nat>, threads: nat, consumers: nat, x: T)
    ensures (exists q: Queue<T> :: Reachable(cap, threads, consumers, true, q) && Deadlock(q))
            <==> 0 < consumers && 1 < threads
  {
    hide Deadlock, Reachable;
    if 0 < consumers && 1 < threads {
      var q := FiniteCapacityDeadlocks(1, threads, consumers, x);
      ReachableResized(cap, Some(1), threads, consumers, q);
    } else {
      forall q: Queue<T> | Reachable(cap, threads, consumers, true, q)
        ensures !Deadlock(q)
      {
        if Deadlock(q) {
          ResizedNeedsTwo(cap, threads, consumers, q);
        }
      }
    }
  }

  /**
   * The queue object: each method is one stretch of code under the lock, run by thread t. waits means that the
   * thread goes to sleep on its condition, tells that it leaves with a notification to make.
   */
  class BlockingQueue<T> {
    var que: seq<T>
    var cap: Option<nat>
    ghost var threads: seq<Phase<T>>
    ghost var put: seq<T>
    ghost var taken: seq<T>

    ghost function View(): Queue<T>
      reads this
    {
      Queue(que, cap, threads, put, taken)
    }

    constructor (cap: Option<nat>, ghost threads: nat)
      ensures View() == Empty(cap, threads)
    {
      this.que, this.cap := [], cap;
      this.threads, this.put, this.taken := seq(threads, _ => Ready), [], [];
    }

    method Put(ghost t: nat, ghost consumers: nat, val: T) returns (waits: bool, tells: bool)
      requires Enabled(View(), consumers, PutBegin(t, val))
      modifies this
      ensures View() == Apply(old(View()), consumers, PutBegin(t, val))
      ensures waits == threads[t].PutBlocked? && tells == threads[t].NotifyNotEmpty?
    {
      var n := |que|;
      if cap.Some? && n >= cap.value {
        threads := threads[t := PutBlocked(val, n)];
        return true, false;
      }
      que, put := que + [val], put + [val];
      threads := threads[t := if n == 0 then NotifyNotEmpty else Ready];
      return false, n == 0;
    }

    /** put after a wakeup: the predicate is checked again; n is still the size read before the wait. */
    method PutAgain(ghost t: nat, ghost consumers: nat, val: T, n: nat) returns (waits: bool, tells: bool)
      requires Enabled(View(), consumers, PutResume(t)) && threads[t] == PutWoken(val, n)
      modifies this
      ensures View() == Apply(old(View()), consumers, PutResume(t))
      ensures waits == threads[t].PutBlocked? && tells == threads[t].NotifyNotEmpty?
    {
      if !(cap.None? || |que| < cap.value) {
        threads := threads[t := PutBlocked(val, n)];
        return true, false;
      }
      que, put := que + [val], put + [val];
      threads := threads[t := if n == 0 then NotifyNotEmpty else Ready];
      return false, n == 0;
    }

    method Get(ghost t: nat, ghost consumers: nat) returns (val: Option<T>, tells: bool)
      requires Enabled(View(), consumers, GetBegin(t))
      modifies this
      ensures View() == Apply(old(View()), consumers, GetBegin(t))
      ensures val == if old(que) == [] then None else Some(old(que)[0])
      ensures val.None? <==> threads[t].GetBlocked?
      ensures tells == threads[t].NotifyNotFull?
    {
      var n := |que|;
      if n == 0 {
        threads := threads[t := GetBlocked(n)];
        return None, false;
      }
      val, tells := Some(que[0]), cap == Some(n);
      que, taken := que[1..], taken + [que[0]];
      threads := threads[t := if cap == Some(n) then NotifyNotFull else Ready];
    }

    /** get after a wakeup, likewise. */
    method GetAgain(ghost t: nat, ghost consumers: nat, n: nat) returns (val: Option<T>, tells: bool)
      requires Enabled(View(), consumers, GetResume(t)) && threads[t] == GetWoken(n)
      modifies this
      ensures View() == Apply(old(View()), consumers, GetResume(t))
      ensures val == if old(que) == [] then None else Some(old(que)[0])
      ensures val.None? <==> threads[t].GetBlocked?
      ensures tells == threads[t].NotifyNotFull?
    {
      if que == [] {
        threads := threads[t := GetBlocked(n)];
        return None, false;
      }
      val, tells := Some(que[0]), cap == Some(n);
      que, taken := que[1..], taken + [que[0]];
      threads := threads[t := if cap == Some(n) then NotifyNotFull else Ready];
    }

    method TryGetItem(ghost t: nat, ghost consumers: nat) returns (val: Option<T>, tells: bool)
      requires Enabled(View(), consumers, TryGet(t))
      modifies this
      ensures View() == Apply(old(View()), consumers, TryGet(t))
      ensures val == if old(que) == [] then None else Some(old(que)[0])
      ensures tells == threads[t].NotifyNotFull?
    {
      var n := |que|;
      if n == 0 {
        return None, false;
      }
      val, tells := Some(que[0]), cap == Some(n);
      que, taken := que[1..], taken + [que[0]];
      threads := threads[t := if cap == Some(n) then NotifyNotFull else Ready];
    }

    method Capacity(ghost t: nat, ghost consumers: nat, cap: Option<nat>)
      requires Enabled(View(), consumers, SetCapacity(t, cap))
      modifies this
      ensures View() == Apply(old(View()), consumers, SetCapacity(t, cap))
    {
      this.cap := cap;
    }
  }
}
