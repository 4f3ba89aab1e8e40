/**
 * The running daemon as interleaved steps: the callback thread of the sensors (on_cache), the callback thread of
 * the commands (on_message) and the daemon thread (DaemonLoop), which share the calculations and, under one lock,
 * the outgoing queue. on_cache takes the lock once per result, a REQUEST pass and a drain hold it throughout.
 */
module Daemon {
  import opened Engine

  /** The sensor callback: idle, about to look at calculation next, or about to enqueue its new value. */
  datatype Callback = Idle | Sweeping(who: set<nat>, next: nat) | Emitting(who: set<nat>, next: nat)

  /** The command callback: a service-wide REQUEST holds the lock and is about to look at calculation next. */
  datatype Command = NoCommand | ServicePass(next: nat)

  /** The daemon thread: the initial pass, its publication, the wait, the wish for the lock, the drain, the end. */
  datatype Control = Starting(next: nat) | Publishing(next: nat) | Waiting | WantsLock | Draining | Stopped

  datatype Status = START | STOP | PAUSE

  /** What Wait returns, and the status the loop then reads. */
  datatype Wake = Wake(cond: int, status: Status)

  datatype Daemon = Daemon(
    calcs: seq<Calc>, cache: Cache, queue: seq<Message>,
    published: seq<Message>,  // what the broker received
    control: Control, paused: bool, callback: Callback, command: Command,
    // The history: sensor messages accepted, results enqueued by on_cache, everything enqueued, initial publications.
    arrived: seq<Event>, emitted: seq<Message>, enqueued: seq<Message>, initial: seq<Message>)

  const STATUS_CHANGED: int := 0

  /** One turn of the loop's body: the new bPause, whether to stop, whether to drain. */
  function AfterWake(paused: bool, w: Wake): (bool, bool, bool) {
    var nowPaused := if w.cond == STATUS_CHANGED && w.status == PAUSE then true
                     else if w.cond == STATUS_CHANGED && w.status == START then false
                     else paused;
    var cond := if w.cond == STATUS_CHANGED && w.status == START then 1 else w.cond;
    (nowPaused, w.cond == STATUS_CHANGED && w.status == STOP, !nowPaused && cond == 1)
  }

  datatype Action =
    | Arrive(event: Event) | SweepNext | SweepDone | Emplace
    | BeginService | ServiceNext | ServiceDone | AskDevice(name: string)
    | StartNext | StartPublish | StartDone
    | Awake(wake: Wake) | Lock | PublishFront | DrainDone

  predicate LockHeld(d: Daemon) {
    d.control == Draining || d.command.ServicePass?
  }

  predicate Enabled(d: Daemon, a: Action) {
    match a
    case Arrive(_) => d.callback == Idle
    case SweepNext => d.callback.Sweeping? && d.callback.next < |d.calcs|
    case SweepDone => d.callback.Sweeping? && d.callback.next == |d.calcs|
    case Emplace => d.callback.Emitting? && d.callback.next < |d.calcs| && !LockHeld(d)
    case BeginService => d.command == NoCommand && !LockHeld(d)
    case ServiceNext => d.command.ServicePass? && d.command.next < |d.calcs|
    case ServiceDone => d.command.ServicePass? && d.command.next == |d.calcs|
    case AskDevice(_) => d.command == NoCommand && !LockHeld(d)
    case StartNext => d.control.Starting? && d.control.next < |d.calcs|
    case StartPublish => d.control.Publishing? && d.control.next < |d.calcs|
    case StartDone => d.control.Starting? && d.control.next == |d.calcs|
    case Awake(_) => d.control == Waiting
    case Lock => d.control == WantsLock && !LockHeld(d)
    case PublishFront => d.control == Draining && d.queue != []
    case DrainDone => d.control == Draining && d.queue == []
  }

  function Enqueue(d: Daemon, i: nat): Daemon
    requires i < |d.calcs|
  {
    var m := Message(d.calcs[i].name, d.calcs[i].value);
    d.(queue := d.queue + [m], enqueued := d.enqueued + [m])
  }

  /** The first calculation of that name; the number of calculations when there is none. */
  function FindName(calcs: seq<Calc>, name: string): (i: nat)
    ensures i <= |calcs|
    ensures i < |calcs| ==> calcs[i].name == name
    ensures forall j :: 0 <= j < i ==> calcs[j].name != name
  {
    if calcs == [] || calcs[0].name == name then 0 else 1 + FindName(calcs[1..], name)
  }

  function ArriveStep(d: Daemon, e: Event): Daemon {
    var (cache, changed) := UpdateValue(d.cache, EventKey(e), e.payload);
    d.(cache := cache, arrived := d.arrived + [e],
       callback := if changed then Sweeping(cache[EventKey(e)].calculs, 0) else Idle)
  }

  function SweepStep(eval: Evaluator, d: Daemon): Daemon
    requires Enabled(d, SweepNext)
  {
    var who, i := d.callback.who, d.callback.next;
    if i !in who then d.(callback := Sweeping(who, i + 1))
    else
      d.(calcs := d.calcs[i := Refresh(eval, d.cache, d.calcs[i])],
         callback := if Output(eval, d.cache, d.calcs[i]) == [] then Sweeping(who, i + 1) else Emitting(who, i))
  }

  /** A calculation without devices is evaluated on no values. */
  function StartStep(eval: Evaluator, d: Daemon): Daemon
    requires Enabled(d, StartNext)
  {
    var i := d.control.next;
    if d.calcs[i].devices != [] then d.(control := Starting(i + 1))
    else
      d.(calcs := d.calcs[i := Refresh(eval, map[], d.calcs[i])],
         control := if Output(eval, map[], d.calcs[i]) == [] then Starting(i + 1) else Publishing(i))
  }

  function StartPublishStep(d: Daemon): Daemon
    requires Enabled(d, StartPublish)
  {
    var c := d.calcs[d.control.next];
    var m := Message(c.name, c.value);
    d.(published := d.published + [m], initial := d.initial + [m], control := Starting(d.control.next + 1))
  }

  function AwakeStep(d: Daemon, w: Wake): Daemon {
    var (paused, stop, drain) := AfterWake(d.paused, w);
    d.(paused := paused, control := if stop then Stopped else if drain then WantsLock else Waiting)
  }

  function Apply(eval: Evaluator, d: Daemon, a: Action): Daemon
    requires Enabled(d, a)
  {
    match a
    case Arrive(e) => ArriveStep(d, e)
    case SweepNext => SweepStep(eval, d)
    case SweepDone => d.(callback := Idle)
    case Emplace =>
      var i := d.callback.next;
      Enqueue(d, i).(emitted := d.emitted + [Message(d.calcs[i].name, d.calcs[i].value)],
                     callback := Sweeping(d.callback.who, i + 1))
    case BeginService => d.(command := ServicePass(0))
    case ServiceNext =>
      var i := d.command.next;
      (if d.calcs[i].isSet then Enqueue(d, i) else d).(command := ServicePass(i + 1))
    case ServiceDone => d.(command := NoCommand)
    case AskDevice(name) =>
      var i := FindName(d.calcs, name);
      if i < |d.calcs| && d.calcs[i].isSet then Enqueue(d, i) else d
    case StartNext => StartStep(eval, d)
    case StartPublish => StartPublishStep(d)
    case StartDone => d.(control := Waiting)
    case Awake(w) => AwakeStep(d, w)
    case Lock => d.(control := Draining)
    case PublishFront => d.(published := d.published + [d.queue[0]], queue := d.queue[1..])
    case DrainDone => d.(control := Waiting)
  }

  /** The daemon when its configuration is done and all three threads begin. */
  function Boot(s: State): Daemon {
    Daemon(s.calcs, s.cache, [], [], Starting(0), false, Idle, NoCommand, [], [], [], [])
  }

  ghost predicate Executes(eval: Evaluator, d: Daemon, actions: seq<Action>)
    decreases |actions|
  {
    actions != [] ==> Enabled(d, actions[0]) && Executes(eval, Apply(eval, d, actions[0]), actions[1..])
  }

  ghost function Final(eval: Evaluator, d: Daemon, actions: seq<Action>): Daemon
    requires Executes(eval, d, actions)
    decreases |actions|
  {
    if actions == [] then d else Final(eval, Apply(eval, d, actions[0]), actions[1..])
  }

  // ----- Three threads and one lock -----

  datatype Thread = Sensors | Commands | Loop

  function ThreadOf(a: Action): Thread {
    match a
    case Arrive(_) => Sensors
    case SweepNext => Sensors
    case SweepDone => Sensors
    case Emplace => Sensors
    case BeginService => Commands
    case ServiceNext => Commands
    case ServiceDone => Commands
    case AskDevice(_) => Commands
    case _ => Loop
  }

  /** The steps that enter the lock, and the ones among them that keep it. */
  predicate EntersLock(a: Action) {
    a.Emplace? || a.BeginService? || a.AskDevice? || a.Lock?
  }

  predicate KeepsLock(a: Action) {
    a.BeginService? || a.Lock?
  }

  /** A drain and a REQUEST pass hold the same lock. */
  ghost predicate LockHeldOnce(d: Daemon) {
    d.control == Draining ==> d.command == NoCommand
  }

  lemma {:induction false} StepKeepsLock(eval: Evaluator, d: Daemon, a: Action)
    requires LockHeldOnce(d) && Enabled(d, a)
    ensures LockHeldOnce(Apply(eval, d, a))
  {
    hide Refresh, Output, UpdateValue;
  }

  /** No thread ever holds up another one, except that a lock that is kept holds up those who want to enter it. */
  lemma {:induction false} ThreadsAreIndependent(eval: Evaluator, d: Daemon, a: Action, b: Action)
    requires LockHeldOnce(d) && Enabled(d, a) && Enabled(d, b) && ThreadOf(a) != ThreadOf(b)
    ensures Enabled(Apply(eval, d, b), a) <==> !(EntersLock(a) && KeepsLock(b))
  {
    hide Refresh, Output, UpdateValue;
  }

  // ----- First in, first out, exactly once -----

  ghost predicate Fifo(d: Daemon) {
    d.initial <= d.published && d.published + d.queue == d.initial + d.enqueued
  }

  /** During the initial pass nothing has left the queue yet. */
  ghost predicate NoEarlyDrain(d: Daemon) {
    (d.control.Starting? || d.control.Publishing?) ==> d.published == d.initial && d.queue == d.enqueued
  }

  ghost predicate NoDrainWhilePaused(d: Daemon) {
    d.control == WantsLock || d.control == Draining ==> !d.paused
  }

  lemma {:induction false} EnqueueKeepsFifo(d: Daemon, i: nat)
    requires Fifo(d) && i < |d.calcs|
    ensures Fifo(Enqueue(d, i))
  {
    var m := Message(d.calcs[i].name, d.calcs[i].value);
    assert d.published + (d.queue + [m]) == d.published + d.queue + [m];
    assert d.initial + (d.enqueued + [m]) == d.initial + d.enqueued + [m];
  }

  lemma {:induction false} StepKeepsFifo(eval: Evaluator, d: Daemon, a: Action)
    requires Fifo(d) && NoEarlyDrain(d) && NoDrainWhilePaused(d) && Enabled(d, a)
    ensures var t := Apply(eval, d, a); Fifo(t) && NoEarlyDrain(t) && NoDrainWhilePaused(t)
  {
    hide Refresh, Output, UpdateValue;
    match a {
      case Emplace => EnqueueKeepsFifo(d, d.callback.next);
      case ServiceNext => EnqueueKeepsFifo(d, d.command.next);
      case AskDevice(name) =>
        if FindName(d.calcs, name) < |d.calcs| {
          EnqueueKeepsFifo(d, FindName(d.calcs, name));
        }
      case StartPublish =>
        var m := Message(d.calcs[d.control.next].name, d.calcs[d.control.next].value);
        assert (d.published + [m]) + d.queue == (d.initial + [m]) + d.enqueued;
      case PublishFront =>
        assert (d.published + [d.queue[0]]) + d.queue[1..] == d.published + d.queue;
      case _ =>
    }
  }

  // ----- One drain -----

  ghost predicate NoDrainDone(actions: seq<Action>) {
    forall j :: 0 <= j < |actions| ==> actions[j] != DrainDone
  }

  ghost function Publications(actions: seq<Action>): nat {
    if actions == [] then 0 else (if actions[0] == PublishFront then 1 else 0) + Publications(actions[1..])
  }

  /** While the drain holds the lock, nobody enqueues, and every publication shortens the queue from its front. */
  lemma {:induction false} DrainIsExclusive(eval: Evaluator, d: Daemon, actions: seq<Action>)
    requires d.control == Draining && d.command == NoCommand
    requires Executes(eval, d, actions) && NoDrainDone(actions)
    ensures var t := Final(eval, d, actions);
            && t.control == Draining && t.command == NoCommand
            && t.enqueued == d.enqueued
            && t.published + t.queue == d.published + d.queue
            && |t.queue| + Publications(actions) == |d.queue|
    decreases |actions|
  {
    hide Refresh, Output, UpdateValue;
    if actions == [] {
    } else {
      var next := Apply(eval, d, actions[0]);
      assert actions[0] != DrainDone;
      if actions[0] == PublishFront {
        assert (d.published + [d.queue[0]]) + d.queue[1..] == d.published + d.queue;
      }
      assert forall j :: 0 <= j < |actions[1..]| ==> actions[1..][j] == actions[j + 1];
      DrainIsExclusive(eval, next, actions[1..]);
    }
  }

  /**
   * A drain publishes at most what it found in the queue and ends only with the queue empty: then it has
   * published exactly the queue it found, in order.
   */
  lemma {:induction false} DrainDeliversAll(eval: Evaluator, d: Daemon, actions: seq<Action>)
    requires d.control == Draining && d.command == NoCommand
    requires Executes(eval, d, actions) && NoDrainDone(actions)
    ensures Publications(actions) <= |d.queue|
    ensures Enabled(Final(eval, d, actions), DrainDone) <==> Publications(actions) == |d.queue|
    ensures Enabled(Final(eval, d, actions), DrainDone) ==> Final(eval, d, actions).published == d.published + d.queue
  {
    DrainIsExclusive(eval, d, actions);
    var t := Final(eval, d, actions);
    if t.queue == [] {
      assert t.published + t.queue == t.published;
    }
  }
}
