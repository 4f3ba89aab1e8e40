/**
 * What holds in every interleaving of the daemon's threads: its engine part is an atomic run of the messages it
 * accepted, and replaying the messages it sent, last one wins, gives exactly its current values.
 */
module DaemonRuns {
  import opened Engine
  import opened EngineRuns
  import opened History
  import opened Daemon

  // ----- Linearisation: micro-steps against atomic callbacks -----

  /** The engine part of the daemon before the callback in progress. */
  ghost function Before(eval: Evaluator, s: State, d: Daemon): State {
    if d.callback == Idle || d.arrived == [] then RunState(eval, s, d.arrived)
    else RunState(eval, s, d.arrived[..|d.arrived| - 1])
  }

  ghost function LogBefore(eval: Evaluator, s: State, d: Daemon): seq<Message> {
    if d.callback == Idle || d.arrived == [] then RunLog(eval, s, d.arrived)
    else RunLog(eval, s, d.arrived[..|d.arrived| - 1])
  }

  /** How far the callback in progress is: calculations below done are settled, and so is the emitting one. */
  function Done(c: Callback): nat {
    match c
    case Idle => 0
    case Sweeping(_, next) => next
    case Emitting(_, next) => next + 1
  }

  function Who(c: Callback): set<nat> {
    match c
    case Idle => {}
    case Sweeping(who, _) => who
    case Emitting(who, _) => who
  }

  /** A calculation with devices is where the atomic run puts it, refreshed if the callback has passed it. */
  ghost predicate CalcLinear(eval: Evaluator, p: State, d: Daemon, i: nat)
    requires i < |d.calcs| == |p.calcs|
  {
    p.calcs[i].devices != [] ==>
      d.calcs[i] == if i in Who(d.callback) && i < Done(d.callback) then Refresh(eval, d.cache, p.calcs[i]) else p.calcs[i]
  }

  /** The callback in progress belongs to the last accepted message, which did change the cache. */
  ghost predicate CallbackLinear(eval: Evaluator, p: State, d: Daemon) {
    if d.callback == Idle then d.cache == p.cache
    else
      && d.arrived != []
      && Done(d.callback) <= |d.calcs|
      && var e := d.arrived[|d.arrived| - 1];
         UpdateValue(p.cache, EventKey(e), e.payload) == (d.cache, true)
         && EventKey(e) in d.cache && Who(d.callback) == d.cache[EventKey(e)].calculs
  }

  ghost predicate EmittedLinear(eval: Evaluator, s: State, p: State, d: Daemon)
    requires Done(d.callback) <= |p.calcs|
  {
    match d.callback
    case Idle => d.emitted == LogBefore(eval, s, d)
    case Sweeping(who, next) => d.emitted == LogBefore(eval, s, d) + Emitted(eval, d.cache, p.calcs, who, next)
    case Emitting(who, next) =>
      && d.emitted == LogBefore(eval, s, d) + Emitted(eval, d.cache, p.calcs, who, next)
      && next in who && Output(eval, d.cache, p.calcs[next]) != []
  }

  ghost predicate Linear(eval: Evaluator, s: State, d: Daemon) {
    var p := Before(eval, s, d);
    && |d.calcs| == |p.calcs|
    && CallbackLinear(eval, p, d)
    && EmittedLinear(eval, s, p, d)
    && forall i: nat :: i < |d.calcs| ==> CalcLinear(eval, p, d, i)
  }

  // ----- The shape of the calculations -----

  ghost predicate ShapeOf(s: State, d: Daemon) {
    && |d.calcs| == |s.calcs|
    && forall i :: 0 <= i < |s.calcs| ==>
         d.calcs[i] == s.calcs[i].(isSet := d.calcs[i].isSet, value := d.calcs[i].value)
  }

  /** A callback sweeps only calculations with devices, the initial pass publishes only ones without. */
  ghost predicate WorkSplit(d: Daemon) {
    && (forall i :: i in Who(d.callback) && i < |d.calcs| ==> d.calcs[i].devices != [])
    && (d.control.Publishing? ==> d.control.next < |d.calcs| && d.calcs[d.control.next].devices == [])
  }

  lemma {:induction false} StepKeepsShape(eval: Evaluator, s: State, d: Daemon, a: Action)
    requires ShapeOf(s, d) && Enabled(d, a)
    ensures ShapeOf(s, Apply(eval, d, a))
  {
    hide UpdateValue, Output;
    var t := Apply(eval, d, a);
    if a == SweepNext {
      RefreshKeepsShape(eval, d.cache, d.calcs[d.callback.next]);
    } else if a == StartNext {
      RefreshKeepsShape(eval, map[], d.calcs[d.control.next]);
    }
    hide Refresh;
    forall i | 0 <= i < |s.calcs|
      ensures t.calcs[i] == s.calcs[i].(isSet := t.calcs[i].isSet, value := t.calcs[i].value)
    {
      assert d.calcs[i] == s.calcs[i].(isSet := d.calcs[i].isSet, value := d.calcs[i].value);
    }
  }

  /** Nothing but the callback and the initial pass changes the engine part. */
  lemma {:induction false} OtherStepFrame(eval: Evaluator, d: Daemon, a: Action)
    requires Enabled(d, a)
    requires !a.Arrive? && !a.SweepNext? && !a.SweepDone? && !a.Emplace? && !a.StartNext?
    ensures var t := Apply(eval, d, a);
            && t.calcs == d.calcs && t.cache == d.cache && t.callback == d.callback
            && t.arrived == d.arrived && t.emitted == d.emitted
  {
    hide Refresh, Output, UpdateValue;
  }

  lemma {:induction false} OtherStepsAreInvisible(eval: Evaluator, s: State, d: Daemon, a: Action)
    requires Linear(eval, s, d) && Enabled(d, a)
    requires !a.Arrive? && !a.SweepNext? && !a.SweepDone? && !a.Emplace? && !a.StartNext?
    ensures Linear(eval, s, Apply(eval, d, a))
  {
    hide Refresh, Output, UpdateValue, RunState, RunLog, Emitted, Apply;
    OtherStepFrame(eval, d, a);
    var t := Apply(eval, d, a);
    assert Before(eval, s, t) == Before(eval, s, d);
    forall i: nat | i < |t.calcs|
      ensures CalcLinear(eval, Before(eval, s, t), t, i)
    {
      assert CalcLinear(eval, Before(eval, s, d), d, i);
    }
  }

  lemma {:induction false} StartIsLinear(eval: Evaluator, s: State, d: Daemon)
    requires Linear(eval, s, d) && Enabled(d, StartNext) && ShapeOf(Before(eval, s, d), d)
    ensures Linear(eval, s, Apply(eval, d, StartNext))
  {
    hide Refresh, Output, UpdateValue, RunState, RunLog, Emitted;
    var p, t := Before(eval, s, d), Apply(eval, d, StartNext);
    assert Before(eval, s, t) == p;
    forall i: nat | i < |t.calcs|
      ensures CalcLinear(eval, p, t, i)
    {
      assert CalcLinear(eval, p, d, i);
      assert p.calcs[i].devices == d.calcs[i].devices;
    }
  }

  lemma {:induction false} ArriveIsLinear(eval: Evaluator, s: State, d: Daemon, e: Event)
    requires Linear(eval, s, d) && Enabled(d, Arrive(e))
    ensures Linear(eval, s, Apply(eval, d, Arrive(e)))
  {
    hide Refresh, Output, RunState, RunLog;
    var p, t := Before(eval, s, d), Apply(eval, d, Arrive(e));
    assert t.arrived[..|t.arrived| - 1] == d.arrived;
    if t.callback == Idle {
      RunAppend(eval, s, d.arrived, [e]);
      OneEvent(eval, RunState(eval, s, d.arrived), e);
      CallbackIdle(eval, p, e);
      assert d.emitted + [] == d.emitted;
      assert p.cache == t.cache;
    } else {
      assert Before(eval, s, t) == p;
      assert d.emitted == d.emitted + [];
    }
    forall i: nat | i < |t.calcs|
      ensures CalcLinear(eval, Before(eval, s, t), t, i)
    {
      assert CalcLinear(eval, p, d, i);
    }
  }

  lemma {:induction false} OneEvent(eval: Evaluator, s: State, e: Event)
    ensures RunState(eval, s, [e]) == OnCache(eval, s, e).0
    ensures RunLog(eval, s, [e]) == OnCache(eval, s, e).1
  {
    assert [e][1..] == [];
    assert RunState(eval, OnCache(eval, s, e).0, [e][1..]) == OnCache(eval, s, e).0;
    assert OnCache(eval, s, e).1 + [] == OnCache(eval, s, e).1;
  }

  lemma {:induction false} SweepIsLinear(eval: Evaluator, s: State, d: Daemon)
    requires Linear(eval, s, d) && Enabled(d, SweepNext) && WorkSplit(d) && ShapeOf(Before(eval, s, d), d)
    ensures Linear(eval, s, Apply(eval, d, SweepNext))
  {
    hide Refresh, Output, UpdateValue, RunState, RunLog;
    var p, t, n := Before(eval, s, d), Apply(eval, d, SweepNext), d.callback.next;
    assert Before(eval, s, t) == p;
    assert CalcLinear(eval, p, d, n);
    assert n in d.callback.who ==> d.calcs[n] == p.calcs[n];
    forall i: nat | i < |t.calcs|
      ensures CalcLinear(eval, p, t, i)
    {
      assert CalcLinear(eval, p, d, i);
    }
    var sent := Emitted(eval, d.cache, p.calcs, d.callback.who, n);
    assert LogBefore(eval, s, d) + (sent + []) == LogBefore(eval, s, d) + sent;
  }

  lemma {:induction false} OutputIsValue(eval: Evaluator, cache: Cache, c: Calc)
    requires Output(eval, cache, c) != []
    ensures Output(eval, cache, c) == [Message(c.name, Refresh(eval, cache, c).value)]
  {
    hide Target;
  }

  lemma {:induction false} EmplaceIsLinear(eval: Evaluator, s: State, d: Daemon)
    requires Linear(eval, s, d) && Enabled(d, Emplace) && WorkSplit(d) && ShapeOf(Before(eval, s, d), d)
    ensures Linear(eval, s, Apply(eval, d, Emplace))
  {
    hide Refresh, UpdateValue, RunState, RunLog, Output;
    var p, t, n := Before(eval, s, d), Apply(eval, d, Emplace), d.callback.next;
    assert Before(eval, s, t) == p;
    assert CalcLinear(eval, p, d, n);
    OutputIsValue(eval, d.cache, p.calcs[n]);
    forall i: nat | i < |t.calcs|
      ensures CalcLinear(eval, p, t, i)
    {
      assert CalcLinear(eval, p, d, i);
    }
    var sent := Emitted(eval, d.cache, p.calcs, d.callback.who, n);
    assert (LogBefore(eval, s, d) + sent) + Output(eval, d.cache, p.calcs[n])
        == LogBefore(eval, s, d) + (sent + Output(eval, d.cache, p.calcs[n]));
  }

  lemma {:induction false} SweepDoneIsLinear(eval: Evaluator, s: State, d: Daemon)
    requires Linear(eval, s, d) && Enabled(d, SweepDone)
    ensures Linear(eval, s, Apply(eval, d, SweepDone))
  {
    hide Refresh, Output, UpdateValue, RunState, RunLog, Emitted;
    var p, t := Before(eval, s, d), Apply(eval, d, SweepDone);
    var es, e := d.arrived[..|d.arrived| - 1], d.arrived[|d.arrived| - 1];
    assert d.arrived == es + [e];
    RunAppend(eval, s, es, [e]);
    OneEvent(eval, p, e);
    var q := OnCache(eval, p, e).0;
    assert Before(eval, s, t) == q && q.cache == d.cache;
    forall i: nat | i < |t.calcs|
      ensures CalcLinear(eval, q, t, i)
    {
      assert CalcLinear(eval, p, d, i);
      CallbackKeepsShape(eval, p, e);
    }
  }

  // ----- The initial pass -----

  function StartedUpTo(d: Daemon): nat {
    match d.control
    case Starting(next) => next
    case Publishing(next) => next + 1
    case _ => |d.calcs|
  }

  ghost function DeviceFree(calcs: seq<Calc>): set<nat> {
    set i: nat | i < |calcs| && calcs[i].devices == []
  }

  /** A calculation without devices is set by the pass, whatever the arithmetic gives. */
  lemma {:induction false} StartValue(eval: Evaluator, c: Calc)
    requires c.devices == []
    ensures var r := Refresh(eval, map[], c);
            r == c.(isSet := true, value := r.value) && StoredForm(c.kind, eval(c.formula, [], map[]), r.value)
  {
    assert Ready(map[], []) && Values(map[], []) == map[];
    NormaliseMeans(c.kind, eval(c.formula, [], map[]));
    hide Normalise, StoredForm, Ready, Values;
  }

  /**
   * What the initial pass leaves: the calculations without devices hold, in the form of their type, what their
   * formula gives, the others are untouched.
   */
  ghost predicate PassedOver(eval: Evaluator, before: seq<Calc>, after: seq<Calc>) {
    && |after| == |before|
    && forall i :: 0 <= i < |before| ==>
         if before[i].devices == []
         then && after[i] == before[i].(isSet := true, value := after[i].value)
              && StoredForm(before[i].kind, eval(before[i].formula, [], map[]), after[i].value)
         else after[i] == before[i]
  }

  lemma {:induction false} InitialPassMeans(eval: Evaluator, calcs: seq<Calc>)
    ensures var after := RefreshAll(eval, map[], calcs, DeviceFree(calcs));
            && PassedOver(eval, calcs, after)
            && Lists(Emitted(eval, map[], calcs, DeviceFree(calcs), |calcs|), after, Changed(calcs, after, |calcs|))
  {
    EmittedLists(eval, map[], calcs, DeviceFree(calcs), |calcs|);
    hide Lists, Changed, Refresh, StoredForm, Emitted;
    forall i | 0 <= i < |calcs| && calcs[i].devices == []
      ensures var r := Refresh(eval, map[], calcs[i]);
              && r == calcs[i].(isSet := true, value := r.value)
              && StoredForm(calcs[i].kind, eval(calcs[i].formula, [], map[]), r.value)
    {
      StartValue(eval, calcs[i]);
    }
  }

  /** The calculations without devices that the pass has seen hold the value of their formula; the others wait. */
  ghost predicate CalcStarted(eval: Evaluator, s: State, d: Daemon, i: nat)
    requires i < |d.calcs| == |s.calcs|
  {
    s.calcs[i].devices == [] ==>
      d.calcs[i] == if i < StartedUpTo(d) then Refresh(eval, map[], s.calcs[i]) else s.calcs[i]
  }

  /** What the pass has sent, including the publication under way. */
  ghost function SentAtStart(d: Daemon): seq<Message> {
    if d.control.Publishing? && d.control.next < |d.calcs|
    then d.initial + [Message(d.calcs[d.control.next].name, d.calcs[d.control.next].value)]
    else d.initial
  }

  ghost predicate Started(eval: Evaluator, s: State, d: Daemon) {
    && |d.calcs| == |s.calcs|
    && StartedUpTo(d) <= |d.calcs|
    && SentAtStart(d) == Emitted(eval, map[], s.calcs, DeviceFree(s.calcs), StartedUpTo(d))
    && forall i: nat :: i < |d.calcs| ==> CalcStarted(eval, s, d, i)
  }

  lemma {:induction false} StartStepKeepsStarted(eval: Evaluator, s: State, d: Daemon)
    requires Started(eval, s, d) && ShapeOf(s, d) && Enabled(d, StartNext)
    ensures Started(eval, s, Apply(eval, d, StartNext))
  {
    hide Refresh, Output, UpdateValue;
    var t, n := Apply(eval, d, StartNext), d.control.next;
    assert CalcStarted(eval, s, d, n);
    assert d.calcs[n] == s.calcs[n].(isSet := d.calcs[n].isSet, value := d.calcs[n].value);
    if n in DeviceFree(s.calcs) && Output(eval, map[], s.calcs[n]) != [] {
      OutputIsValue(eval, map[], s.calcs[n]);
      RefreshKeepsShape(eval, map[], s.calcs[n]);
    }
    var sent := Emitted(eval, map[], s.calcs, DeviceFree(s.calcs), n);
    assert sent + [] == sent;
    forall i: nat | i < |t.calcs|
      ensures CalcStarted(eval, s, t, i)
    {
      assert CalcStarted(eval, s, d, i);
    }
  }

  /** The pass sees no other step: it depends on the device-free calculations and on its own progress alone. */
  lemma {:induction false} StartedIsLocal(eval: Evaluator, s: State, d: Daemon, t: Daemon)
    requires Started(eval, s, d) && |t.calcs| == |d.calcs|
    requires StartedUpTo(t) == StartedUpTo(d) && SentAtStart(t) == SentAtStart(d)
    requires forall i :: 0 <= i < |d.calcs| && s.calcs[i].devices == [] ==> t.calcs[i] == d.calcs[i]
    ensures Started(eval, s, t)
  {
    hide Emitted, Refresh, StartedUpTo, SentAtStart;
    forall i: nat | i < |t.calcs|
      ensures CalcStarted(eval, s, t, i)
    {
      assert CalcStarted(eval, s, d, i);
    }
  }

  lemma {:induction false} SweepKeepsStarted(eval: Evaluator, s: State, d: Daemon)
    requires Started(eval, s, d) && ShapeOf(s, d) && WorkSplit(d) && Enabled(d, SweepNext)
    ensures Started(eval, s, Apply(eval, d, SweepNext))
  {
    hide Refresh, Output, Started;
    var t, n := Apply(eval, d, SweepNext), d.callback.next;
    assert n in d.callback.who ==> s.calcs[n].devices == d.calcs[n].devices != [];
    assert |t.calcs| == |d.calcs| && forall i :: 0 <= i < |d.calcs| && i != n ==> t.calcs[i] == d.calcs[i];
    assert n !in d.callback.who ==> t.calcs == d.calcs;
    assert d.control.Publishing? && n in d.callback.who ==> d.control.next != n;
    hide WorkSplit, ShapeOf;
    StartedIsLocal(eval, s, d, t);
  }

  lemma {:induction false} OtherStepKeepsStarted(eval: Evaluator, s: State, d: Daemon, a: Action)
    requires Started(eval, s, d) && Enabled(d, a) && a != StartNext && a != SweepNext
    ensures Started(eval, s, Apply(eval, d, a))
  {
    StartedIsBounded(eval, s, d);
    hide Refresh, Output, UpdateValue, Started;
    assert Apply(eval, d, a).calcs == d.calcs;
    StartedIsLocal(eval, s, d, Apply(eval, d, a));
  }

  lemma {:induction false} StepKeepsStarted(eval: Evaluator, s: State, d: Daemon, a: Action)
    requires Started(eval, s, d) && ShapeOf(s, d) && WorkSplit(d) && Enabled(d, a)
    ensures Started(eval, s, Apply(eval, d, a))
  {
    hide *;
    if a == StartNext {
      StartStepKeepsStarted(eval, s, d);
    } else if a == SweepNext {
      SweepKeepsStarted(eval, s, d);
    } else {
      OtherStepKeepsStarted(eval, s, d, a);
    }
  }

  lemma {:induction false} StartedIsBounded(eval: Evaluator, s: State, d: Daemon)
    requires Started(eval, s, d)
    ensures StartedUpTo(d) <= |d.calcs| == |s.calcs|
  {
  }

  // ----- Replaying what was sent -----

  /** The last payload of every name. */
  ghost function Replay(log: seq<Message>): map<string, string> {
    if log == [] then map[]
    else Replay(log[..|log| - 1])[log[|log| - 1].topic := log[|log| - 1].payload]
  }

  lemma {:induction false} ReplaySnoc(log: seq<Message>, m: Message)
    ensures Replay(log + [m]) == Replay(log)[m.topic := m.payload]
  {
    assert (log + [m])[..|log|] == log;
  }

  lemma {:induction false} ReplayAppend(a: seq<Message>, b: seq<Message>)
    ensures Replay(a + b) == Replay(a) + Replay(b)
    decreases |b|
  {
    if b == [] {
      assert a + b == a;
    } else {
      var front, m := b[..|b| - 1], b[|b| - 1];
      assert a + b == (a + front) + [m] && b == front + [m];
      ReplayAppend(a, front);
      ReplaySnoc(a + front, m);
      ReplaySnoc(front, m);
    }
  }

  /** The replay has the calculation's value, or nothing while it has none. */
  ghost predicate Shows(replay: map<string, string>, c: Calc) {
    if c.isSet then c.name in replay && replay[c.name] == c.value else c.name !in replay
  }

  /** Its new value is stored and not yet enqueued or published. */
  predicate InFlight(d: Daemon, i: nat) {
    || (d.callback.Emitting? && d.callback.next == i)
    || (d.control.Publishing? && d.control.next == i)
  }

  ghost predicate KnownNames(replay: map<string, string>, calcs: seq<Calc>) {
    forall name :: name in replay ==> exists i :: 0 <= i < |calcs| && calcs[i].name == name
  }

  /** What holds of the replays of the published and of the queued messages. */
  ghost predicate Consistent(sent: map<string, string>, queued: map<string, string>, d: Daemon) {
    && (forall i: nat :: i < |d.calcs| && !InFlight(d, i) ==> Shows(sent + queued, d.calcs[i]))
    && KnownNames(sent + queued, d.calcs)
    && (d.callback.Emitting? ==> d.callback.next < |d.calcs| && d.calcs[d.callback.next].isSet)
    && (d.control.Publishing? ==> d.control.next < |d.calcs| && Announces(queued, d.calcs[d.control.next]))
  }

  /** The calculation is set, and only its value can be on its way through the queue. */
  ghost predicate Announces(queued: map<string, string>, c: Calc) {
    c.isSet && (c.name in queued ==> queued[c.name] == c.value)
  }

  ghost predicate Replayed(d: Daemon) {
    Consistent(Replay(d.published), Replay(d.queue), d)
  }

  lemma {:induction false} ShowsOthers(replay: map<string, string>, c: Calc, name: string, value: string)
    requires c.name != name
    ensures Shows(replay[name := value], c) <==> Shows(replay, c)
  {
  }

  lemma {:induction false} KnowsOneMore(replay: map<string, string>, calcs: seq<Calc>, i: nat, value: string)
    requires KnownNames(replay, calcs) && i < |calcs|
    ensures KnownNames(replay[calcs[i].name := value], calcs)
  {
  }

  lemma {:induction false} SameNamesKnown(replay: map<string, string>, calcs: seq<Calc>, others: seq<Calc>)
    requires KnownNames(replay, calcs) && |calcs| == |others|
    requires forall i :: 0 <= i < |calcs| ==> others[i].name == calcs[i].name
    ensures KnownNames(replay, others)
  {
    forall name | name in replay
      ensures exists i :: 0 <= i < |others| && others[i].name == name
    {
      var i :| 0 <= i < |calcs| && calcs[i].name == name;
      assert others[i].name == name;
    }
  }

  lemma {:induction false} ShowsDistinct(replay: map<string, string>, calcs: seq<Calc>, i: nat)
    requires DistinctNames(calcs) && i < |calcs| && calcs[i].isSet
    ensures var more := replay[calcs[i].name := calcs[i].value];
            && Shows(more, calcs[i])
            && forall j: nat :: j < |calcs| && j != i ==> (Shows(more, calcs[j]) <==> Shows(replay, calcs[j]))
  {
    forall j: nat | j < |calcs| && j != i
      ensures Shows(replay[calcs[i].name := calcs[i].value], calcs[j]) <==> Shows(replay, calcs[j])
    {
      ShowsOthers(replay, calcs[j], calcs[i].name, calcs[i].value);
    }
  }

  /** Sending the value of calculation i once more, to the queue or to the broker. */
  lemma {:induction false} SendKeepsConsistent(sent: map<string, string>, queued: map<string, string>,
                                               sent2: map<string, string>, queued2: map<string, string>, d: Daemon, i: nat)
    requires Consistent(sent, queued, d) && DistinctNames(d.calcs) && i < |d.calcs| && d.calcs[i].isSet
    requires queued2 == queued || queued2 == queued[d.calcs[i].name := d.calcs[i].value]
    requires sent2 + queued2 == (sent + queued)[d.calcs[i].name := d.calcs[i].value]
    ensures Consistent(sent2, queued2, d) && Shows(sent2 + queued2, d.calcs[i])
  {
    var c := d.calcs[i];
    ShowsDistinct(sent + queued, d.calcs, i);
    KnowsOneMore(sent + queued, d.calcs, i, c.value);
    assert d.control.Publishing? ==> Announces(queued2, d.calcs[d.control.next]);
    hide KnownNames, Shows, Announces, InFlight;
  }

  /** Nothing is in flight any more that was not before, except what the replay shows. */
  lemma {:induction false} SettledStaysConsistent(sent: map<string, string>, queued: map<string, string>, d: Daemon, t: Daemon, i: nat)
    requires Consistent(sent, queued, d) && t.calcs == d.calcs && i < |d.calcs| && Shows(sent + queued, d.calcs[i])
    requires forall j: nat :: j < |d.calcs| && j != i && InFlight(d, j) ==> InFlight(t, j)
    requires t.callback.Emitting? ==> t.callback == d.callback
    requires t.control.Publishing? ==> t.control == d.control
    ensures Consistent(sent, queued, t)
  {
    hide KnownNames, Shows, Announces, InFlight;
  }

  /** Enqueueing a calculation's current value never hurts, whoever does it and whatever is in flight. */
  lemma {:induction false} EnqueueKeepsReplay(d: Daemon, i: nat)
    requires Replayed(d) && DistinctNames(d.calcs) && i < |d.calcs| && d.calcs[i].isSet
    ensures Replayed(Enqueue(d, i))
    ensures Shows(Replay(d.published) + Replay(Enqueue(d, i).queue), d.calcs[i])
  {
    var c, t := d.calcs[i], Enqueue(d, i);
    ReplaySnoc(d.queue, Message(c.name, c.value));
    hide Replay, Shows, Consistent;
    var sent, queued := Replay(d.published), Replay(d.queue);
    var queued2 := queued[c.name := c.value];
    assert sent + queued2 == (sent + queued)[c.name := c.value];
    SendKeepsConsistent(sent, queued, sent, queued2, d, i);
    SameStateConsistent(sent, queued2, d, t);
  }

  lemma {:induction false} SameStateConsistent(sent: map<string, string>, queued: map<string, string>, d: Daemon, t: Daemon)
    requires Consistent(sent, queued, d)
    requires t.calcs == d.calcs && t.callback == d.callback && t.control == d.control
    ensures Consistent(sent, queued, t)
  {
    assert forall j: nat :: InFlight(t, j) == InFlight(d, j);
    hide KnownNames, Shows, Announces, InFlight;
  }

  /** Settling the emission: the callback moves on once the value is in the queue. */
  lemma {:induction false} EmplaceKeepsReplay(eval: Evaluator, d: Daemon)
    requires Replayed(d) && DistinctNames(d.calcs) && Enabled(d, Emplace)
    ensures Replayed(Apply(eval, d, Emplace))
  {
    var n, t := d.callback.next, Apply(eval, d, Emplace);
    EnqueueKeepsReplay(d, n);
    var e := Enqueue(d, n);
    assert forall j: nat :: j != n && InFlight(e, j) ==> InFlight(t, j);
    SettledStaysConsistent(Replay(t.published), Replay(t.queue), e, t, n);
    hide Replay, Shows, Consistent;
  }

  lemma {:induction false} PublishingAnnounces(sent: map<string, string>, queued: map<string, string>, d: Daemon)
    requires Consistent(sent, queued, d) && d.control.Publishing? && d.control.next < |d.calcs|
    ensures var c := d.calcs[d.control.next];
            c.isSet && (sent[c.name := c.value] + queued == (sent + queued)[c.name := c.value])
  {
  }

  lemma {:induction false} StartPublishKeepsReplay(eval: Evaluator, d: Daemon)
    requires Replayed(d) && DistinctNames(d.calcs) && Enabled(d, StartPublish)
    ensures Replayed(Apply(eval, d, StartPublish))
  {
    var n, t := d.control.next, Apply(eval, d, StartPublish);
    var c := d.calcs[n];
    ReplaySnoc(d.published, Message(c.name, c.value));
    var sent, queued := Replay(d.published), Replay(d.queue);
    PublishingAnnounces(sent, queued, d);
    assert forall j: nat :: j != n && InFlight(d, j) ==> InFlight(t, j);
    hide Replay, Shows, Consistent, InFlight;
    SendKeepsConsistent(sent, queued, sent[c.name := c.value], queued, d, n);
    SettledStaysConsistent(sent[c.name := c.value], queued, d, t, n);
  }

  lemma {:induction false} ReplayShifts(published: seq<Message>, queue: seq<Message>)
    requires queue != []
    ensures Replay(published + [queue[0]]) + Replay(queue[1..]) == Replay(published) + Replay(queue)
  {
    ReplayAppend(published, queue);
    ReplayAppend(published + [queue[0]], queue[1..]);
    assert published + queue == published + [queue[0]] + queue[1..];
    hide Replay;
  }

  lemma {:induction false} PublishFrontKeepsReplay(eval: Evaluator, d: Daemon)
    requires Replayed(d) && Enabled(d, PublishFront)
    ensures Replayed(Apply(eval, d, PublishFront))
  {
    hide Replay, Consistent;
    var t := Apply(eval, d, PublishFront);
    ReplayShifts(d.published, d.queue);
    DrainingConsistent(Replay(d.published), Replay(d.queue), Replay(t.published), Replay(t.queue), d, t);
  }

  /** Outside the initial pass only the whole replay matters. */
  lemma {:induction false} DrainingConsistent(sent: map<string, string>, queued: map<string, string>,
                                              sent2: map<string, string>, queued2: map<string, string>, d: Daemon, t: Daemon)
    requires Consistent(sent, queued, d) && sent2 + queued2 == sent + queued
    requires t.calcs == d.calcs && t.callback == d.callback && t.control == d.control == Draining
    ensures Consistent(sent2, queued2, t)
  {
    assert forall j: nat :: InFlight(t, j) == InFlight(d, j);
    hide KnownNames, Shows, Announces, InFlight;
  }

  /** A refresh that outputs nothing changes nothing. */
  lemma {:induction false} SilentRefresh(eval: Evaluator, cache: Cache, c: Calc)
    ensures Output(eval, cache, c) == [] ==> Refresh(eval, cache, c) == c
    ensures Output(eval, cache, c) != [] ==> Refresh(eval, cache, c).isSet
  {
    hide Target;
  }

  /** Nothing that the replay depends on moves. */
  ghost predicate Silent(d: Daemon, t: Daemon) {
    && t.calcs == d.calcs && t.published == d.published && t.queue == d.queue
    && (t.callback.Emitting? || d.callback.Emitting? ==> t.callback == d.callback)
    && (t.control.Publishing? || d.control.Publishing? ==> t.control == d.control)
  }

  lemma {:induction false} SilentKeepsReplay(d: Daemon, t: Daemon)
    requires Replayed(d) && Silent(d, t)
    ensures Replayed(t)
  {
    assert forall j: nat :: InFlight(t, j) == InFlight(d, j);
    hide Replay, Shows, KnownNames, Announces, InFlight;
  }

  /** A calculation that goes into flight may take any value. */
  lemma {:induction false} TakeoffStaysConsistent(sent: map<string, string>, queued: map<string, string>, d: Daemon, t: Daemon, n: nat)
    requires Consistent(sent, queued, d) && n < |d.calcs| == |t.calcs| && InFlight(t, n)
    requires forall i: nat :: i < |d.calcs| && i != n ==> t.calcs[i] == d.calcs[i] && InFlight(t, i) == InFlight(d, i)
    requires t.calcs[n].name == d.calcs[n].name
    requires t.callback.Emitting? ==> t.callback.next < |t.calcs| && t.calcs[t.callback.next].isSet
    requires t.control.Publishing? ==> t.control.next < |t.calcs| && Announces(queued, t.calcs[t.control.next])
    ensures Consistent(sent, queued, t)
  {
    SameNamesKnown(sent + queued, d.calcs, t.calcs);
    hide KnownNames, Shows, Announces, InFlight;
  }

  lemma {:induction false} SweepKeepsReplay(eval: Evaluator, d: Daemon)
    requires Replayed(d) && DistinctNames(d.calcs) && WorkSplit(d) && Enabled(d, SweepNext)
    ensures Replayed(Apply(eval, d, SweepNext))
  {
    var n, t := d.callback.next, Apply(eval, d, SweepNext);
    SilentRefresh(eval, d.cache, d.calcs[n]);
    RefreshKeepsShape(eval, d.cache, d.calcs[n]);
    hide Refresh, Output, Replay, Shows, KnownNames;
    if t.callback.Emitting? {
      assert d.control.Publishing? ==> d.control.next != n;
      TakeoffStaysConsistent(Replay(d.published), Replay(d.queue), d, t, n);
    } else {
      assert t.calcs == d.calcs;
      SilentKeepsReplay(d, t);
    }
    hide Consistent;
  }

  lemma {:induction false} StartKeepsReplay(eval: Evaluator, d: Daemon)
    requires Replayed(d) && DistinctNames(d.calcs) && WorkSplit(d) && Enabled(d, StartNext)
    requires d.calcs[d.control.next].devices == [] ==> !d.calcs[d.control.next].isSet
    ensures Replayed(Apply(eval, d, StartNext))
  {
    var n, t := d.control.next, Apply(eval, d, StartNext);
    SilentRefresh(eval, map[], d.calcs[n]);
    RefreshKeepsShape(eval, map[], d.calcs[n]);
    assert d.calcs[n].devices == [] ==> d.calcs[n].name !in Replay(d.published) + Replay(d.queue) by {
      assert Shows(Replay(d.published) + Replay(d.queue), d.calcs[n]) || InFlight(d, n);
    }
    hide Refresh, Output, Replay, Shows, KnownNames;
    if t.control.Publishing? {
      assert Announces(Replay(d.queue), t.calcs[n]);
      TakeoffStaysConsistent(Replay(d.published), Replay(d.queue), d, t, n);
    } else {
      assert t.calcs == d.calcs;
      SilentKeepsReplay(d, t);
    }
    hide Consistent;
  }

  ghost predicate Unset(s: State) {
    forall i :: 0 <= i < |s.calcs| ==> !s.calcs[i].isSet
  }

  lemma {:induction false} StepKeepsReplay(eval: Evaluator, s: State, d: Daemon, a: Action)
    requires Replayed(d) && DistinctNames(d.calcs) && WorkSplit(d) && Enabled(d, a)
    requires Started(eval, s, d) && ShapeOf(s, d) && Unset(s)
    ensures Replayed(Apply(eval, d, a))
  {
    match a {
      case SweepNext => SweepKeepsReplay(eval, d);
      case StartNext =>
        assert CalcStarted(eval, s, d, d.control.next);
        assert d.calcs[d.control.next].devices == s.calcs[d.control.next].devices;
        StartKeepsReplay(eval, d);
      case Emplace => EmplaceKeepsReplay(eval, d);
      case StartPublish => StartPublishKeepsReplay(eval, d);
      case PublishFront => PublishFrontKeepsReplay(eval, d);
      case _ => RequestKeepsReplay(eval, d, a);
    }
  }

  lemma {:induction false} SilentSteps(eval: Evaluator, d: Daemon, a: Action)
    requires Enabled(d, a) && !a.SweepNext? && !a.StartNext? && !a.Emplace? && !a.StartPublish? && !a.PublishFront?
    ensures Silent(match a
                   case ServiceNext => if d.calcs[d.command.next].isSet then Enqueue(d, d.command.next) else d
                   case AskDevice(name) =>
                     var i := FindName(d.calcs, name);
                     if i < |d.calcs| && d.calcs[i].isSet then Enqueue(d, i) else d
                   case _ => d,
                   Apply(eval, d, a))
  {
    hide UpdateValue;
  }

  /** Requests, and the steps that touch neither the queue nor the calculations. */
  lemma {:induction false} RequestKeepsReplay(eval: Evaluator, d: Daemon, a: Action)
    requires Replayed(d) && DistinctNames(d.calcs) && Enabled(d, a)
    requires !a.SweepNext? && !a.StartNext? && !a.Emplace? && !a.StartPublish? && !a.PublishFront?
    ensures Replayed(Apply(eval, d, a))
  {
    SilentSteps(eval, d, a);
    hide Apply, Replayed, Silent;
    var i := match a
             case ServiceNext => d.command.next
             case AskDevice(name) => FindName(d.calcs, name)
             case _ => |d.calcs|;
    if i < |d.calcs| && d.calcs[i].isSet {
      EnqueueKeepsReplay(d, i);
      SilentKeepsReplay(Enqueue(d, i), Apply(eval, d, a));
    } else {
      SilentKeepsReplay(d, Apply(eval, d, a));
    }
  }

  // ----- The invariant of every interleaving -----

  ghost predicate Invariant(eval: Evaluator, s: State, d: Daemon) {
    && Fifo(d) && NoEarlyDrain(d) && NoDrainWhilePaused(d) && LockHeldOnce(d)
    && Linear(eval, s, d) && ShapeOf(s, d) && WorkSplit(d)
    && Started(eval, s, d) && Replayed(d)
  }

  /** A configured engine whose calculations are all new and have the distinct names of their sections. */
  ghost predicate Fresh(s: State) {
    Configured(s) && Unset(s) && DistinctNames(s.calcs)
  }

  lemma {:induction false} BootHolds(eval: Evaluator, s: State)
    requires Fresh(s)
    ensures Invariant(eval, s, Boot(s))
  {
    var d := Boot(s);
    assert Before(eval, s, d) == s;
    assert [] + [] == d.emitted;
    assert Replay(d.published) + Replay(d.queue) == map[];
  }

  lemma {:induction false} ShapeOfBefore(eval: Evaluator, s: State, d: Daemon)
    requires ShapeOf(s, d) && IndexSound(s)
    ensures ShapeOf(Before(eval, s, d), d) && IndexSound(Before(eval, s, d))
  {
    var es := if d.callback == Idle || d.arrived == [] then d.arrived else d.arrived[..|d.arrived| - 1];
    RunKeepsShape(eval, s, es);
    var p := Before(eval, s, d);
    forall i | 0 <= i < |s.calcs|
      ensures d.calcs[i] == p.calcs[i].(isSet := d.calcs[i].isSet, value := d.calcs[i].value)
    {
      assert p.calcs[i] == s.calcs[i].(isSet := p.calcs[i].isSet, value := p.calcs[i].value);
    }
  }

  lemma {:induction false} StepIsLinear(eval: Evaluator, s: State, d: Daemon, a: Action)
    requires Linear(eval, s, d) && WorkSplit(d) && ShapeOf(Before(eval, s, d), d) && Enabled(d, a)
    ensures Linear(eval, s, Apply(eval, d, a))
  {
    match a {
      case Arrive(e) => ArriveIsLinear(eval, s, d, e);
      case SweepNext => SweepIsLinear(eval, s, d);
      case SweepDone => SweepDoneIsLinear(eval, s, d);
      case Emplace => EmplaceIsLinear(eval, s, d);
      case StartNext => StartIsLinear(eval, s, d);
      case _ => OtherStepsAreInvisible(eval, s, d, a);
    }
  }

  lemma {:induction false} ArriveSplitsWork(eval: Evaluator, s: State, d: Daemon, e: Event)
    requires WorkSplit(d) && Linear(eval, s, d) && Enabled(d, Arrive(e))
    requires ShapeOf(Before(eval, s, d), d) && IndexSound(Before(eval, s, d))
    ensures WorkSplit(Apply(eval, d, Arrive(e)))
  {
    var p, key := Before(eval, s, d), EventKey(e);
    if key in d.cache {
      assert EntrySound(p.calcs, key, p.cache[key].calculs);
      forall i | i in p.cache[key].calculs
        ensures i < |d.calcs| && d.calcs[i].devices != []
      {
        assert d.calcs[i].devices == p.calcs[i].devices;
      }
    }
  }

  lemma {:induction false} StepKeepsDevices(eval: Evaluator, s: State, d: Daemon, a: Action)
    requires ShapeOf(s, d) && Enabled(d, a)
    ensures var t := Apply(eval, d, a);
            |t.calcs| == |d.calcs| && forall i :: 0 <= i < |d.calcs| ==> t.calcs[i].devices == d.calcs[i].devices
  {
    StepKeepsShape(eval, s, d, a);
    hide Apply, Enabled;
    var t := Apply(eval, d, a);
    forall i | 0 <= i < |d.calcs|
      ensures t.calcs[i].devices == d.calcs[i].devices
    {
      assert d.calcs[i] == s.calcs[i].(isSet := d.calcs[i].isSet, value := d.calcs[i].value);
      assert t.calcs[i] == s.calcs[i].(isSet := t.calcs[i].isSet, value := t.calcs[i].value);
    }
  }

  lemma {:induction false} OtherStepSplitsWork(eval: Evaluator, s: State, d: Daemon, a: Action)
    requires WorkSplit(d) && ShapeOf(s, d) && Enabled(d, a) && !a.Arrive?
    ensures WorkSplit(Apply(eval, d, a))
  {
    StepKeepsDevices(eval, s, d, a);
    hide Refresh, Output, ShapeOf;
    var t := Apply(eval, d, a);
    assert Who(t.callback) <= Who(d.callback);
    assert t.control.Publishing? ==> t.control.next < |d.calcs| && d.calcs[t.control.next].devices == [];
    hide Apply;
  }

  lemma {:induction false} StepSplitsWork(eval: Evaluator, s: State, d: Daemon, a: Action)
    requires WorkSplit(d) && ShapeOf(s, d) && Linear(eval, s, d) && Enabled(d, a)
    requires ShapeOf(Before(eval, s, d), d) && IndexSound(Before(eval, s, d))
    ensures WorkSplit(Apply(eval, d, a))
  {
    hide Apply, Enabled, WorkSplit, Linear;
    if a.Arrive? {
      ArriveSplitsWork(eval, s, d, a.event);
    } else {
      OtherStepSplitsWork(eval, s, d, a);
    }
  }

  lemma {:induction false} StepKeepsInvariant(eval: Evaluator, s: State, d: Daemon, a: Action)
    requires Fresh(s) && Invariant(eval, s, d) && Enabled(d, a)
    ensures Invariant(eval, s, Apply(eval, d, a))
  {
    hide Apply, Enabled, Linear, WorkSplit, Started, Replayed, Fifo, LockHeldOnce, Configured;
    assert DistinctNames(d.calcs) by {
      assert forall i :: 0 <= i < |s.calcs| ==> d.calcs[i].name == s.calcs[i].name;
    }
    assert IndexSound(s) by {
      ConfiguredIsSound(s);
    }
    ShapeOfBefore(eval, s, d);
    StepKeepsFifo(eval, d, a);
    StepKeepsLock(eval, d, a);
    StepIsLinear(eval, s, d, a);
    StepKeepsShape(eval, s, d, a);
    StepSplitsWork(eval, s, d, a);
    StepKeepsStarted(eval, s, d, a);
    StepKeepsReplay(eval, s, d, a);
  }

  lemma {:induction false} ConfiguredIsSound(s: State)
    requires Configured(s)
    ensures IndexSound(s)
  {
  }

  lemma {:induction false} EveryInterleaving(eval: Evaluator, s: State, d: Daemon, actions: seq<Action>)
    requires Fresh(s) && Invariant(eval, s, d) && Executes(eval, d, actions)
    ensures Invariant(eval, s, Final(eval, d, actions))
    decreases |actions|
  {
    hide Apply, Enabled, Invariant, Fresh;
    if actions == [] {
    } else {
      StepKeepsInvariant(eval, s, d, actions[0]);
      EveryInterleaving(eval, s, Apply(eval, d, actions[0]), actions[1..]);
    }
  }

  // ----- The results -----

  /** What the daemon can be after its boot, however its threads interleave. */
  ghost predicate Reachable(eval: Evaluator, s: State, d: Daemon) {
    exists actions :: Executes(eval, Boot(s), actions) && Final(eval, Boot(s), actions) == d
  }

  lemma {:induction false} ReachableInvariant(eval: Evaluator, s: State, d: Daemon)
    requires Fresh(s) && Reachable(eval, s, d)
    ensures Invariant(eval, s, d)
  {
    var actions :| Executes(eval, Boot(s), actions) && Final(eval, Boot(s), actions) == d;
    BootHolds(eval, s);
    EveryInterleaving(eval, s, Boot(s), actions);
  }

  /**
   * Exactly-once, in-order delivery: what was published is the initial publications followed by a prefix of
   * everything enqueued, and the rest of it is still queued; a drain is never under way while paused.
   */
  lemma {:induction false} DeliveryIsFifo(eval: Evaluator, s: State, d: Daemon)
    requires Fresh(s) && Reachable(eval, s, d)
    ensures |d.initial| <= |d.published| && d.published[..|d.initial|] == d.initial
    ensures d.published[|d.initial|..] + d.queue == d.enqueued
    ensures Enabled(d, PublishFront) || d.control == WantsLock ==> !d.paused
  {
    hide Fresh, Reachable, Linear, Started, Replayed, ShapeOf, WorkSplit;
    ReachableInvariant(eval, s, d);
    FifoSplits(d.initial, d.published, d.queue, d.enqueued);
  }

  /**
   * Whenever a drain is under way, nobody else enqueues, and it can end exactly when it has published the queue it
   * found, in order.
   */
  lemma {:induction false} EveryDrainDelivers(eval: Evaluator, s: State, d: Daemon, actions: seq<Action>)
    requires Fresh(s) && Reachable(eval, s, d) && d.control == Draining
    requires Executes(eval, d, actions) && NoDrainDone(actions)
    ensures var t := Final(eval, d, actions);
            && t.enqueued == d.enqueued && t.published + t.queue == d.published + d.queue
            && (Enabled(t, DrainDone) <==> Publications(actions) == |d.queue|)
            && (Enabled(t, DrainDone) ==> t.published == d.published + d.queue)
  {
    assert d.command == NoCommand by {
      hide Fresh, Reachable, Linear, Started, Replayed, ShapeOf, WorkSplit;
      ReachableInvariant(eval, s, d);
    }
    hide Invariant, Reachable, Fresh, Final, Executes, NoDrainDone, Publications;
    DrainIsExclusive(eval, d, actions);
    DrainDeliversAll(eval, d, actions);
  }

  lemma {:induction false} FifoSplits(initial: seq<Message>, published: seq<Message>, queue: seq<Message>, enqueued: seq<Message>)
    requires initial <= published && published + queue == initial + enqueued
    ensures published[..|initial|] == initial && published[|initial|..] + queue == enqueued
  {
    var n := |initial|;
    assert (published + queue)[n..] == published[n..] + queue;
    assert (initial + enqueued)[n..] == enqueued;
  }

  /**
   * Between callbacks the sensor side is exactly an atomic run of the messages it accepted: same cache, same
   * calculations with devices, same messages enqueued by on_cache in the same order. The calculations without
   * devices are where the initial pass put them.
   */
  lemma {:induction false} CallbacksAreAtomic(eval: Evaluator, s: State, d: Daemon)
    requires Fresh(s) && Reachable(eval, s, d) && d.callback == Idle
    ensures var t := RunState(eval, s, d.arrived);
            && d.cache == t.cache && |d.calcs| == |t.calcs| == |s.calcs|
            && d.emitted == RunLog(eval, s, d.arrived)
            && forall i: nat :: i < |s.calcs| ==>
                 d.calcs[i] == if s.calcs[i].devices != [] then t.calcs[i]
                               else if i < StartedUpTo(d) then Refresh(eval, map[], s.calcs[i]) else s.calcs[i]
  {
    ReachableInvariant(eval, s, d);
    RunKeepsShape(eval, s, d.arrived);
    var t := RunState(eval, s, d.arrived);
    forall i: nat | i < |s.calcs|
      ensures d.calcs[i] == if s.calcs[i].devices != [] then t.calcs[i]
                            else if i < StartedUpTo(d) then Refresh(eval, map[], s.calcs[i]) else s.calcs[i]
    {
      assert CalcLinear(eval, t, d, i) && CalcStarted(eval, s, d, i);
      assert t.calcs[i].devices == s.calcs[i].devices;
    }
  }

  /** Hence cache and results agree between callbacks, whatever the other threads are doing. */
  lemma {:induction false} AgreementUnderInterleaving(eval: Evaluator, s: State, d: Daemon, i: nat)
    requires Fresh(s) && Reachable(eval, s, d) && d.callback == Idle
    requires i < |s.calcs| && Wired(s, i) && s.calcs[i].devices != []
    ensures |d.calcs| == |s.calcs| && Agrees(eval, d.cache, d.calcs[i])
  {
    CallbacksAreAtomic(eval, s, d);
    ConfiguredAgrees(eval, s);
    RunKeepsAgreement(eval, s, d.arrived, i);
    RunKeepsShape(eval, s, d.arrived);
  }

  /** And the next callback does to the daemon's own state what recomputing everything would do. */
  lemma {:induction false} RefinementUnderInterleaving(eval: Evaluator, s: State, d: Daemon, e: Event)
    requires Fresh(s) && Reachable(eval, s, d) && d.callback == Idle && AllWired(s)
    ensures var t := State(d.calcs, d.cache); OnCache(eval, t, e) == FullRecompute(eval, t, e)
  {
    var t := State(d.calcs, d.cache);
    ShapeUnderInterleaving(eval, s, d);
    ShapeKeepsWiring(s, t);
    assert AllAgree(eval, t) by {
      hide Reachable, Fresh, Wired;
      forall i: nat | i < |t.calcs| && t.calcs[i].devices != []
        ensures Agrees(eval, t.cache, t.calcs[i])
      {
        AgreementUnderInterleaving(eval, s, d, i);
      }
    }
    IncrementalIsFull(eval, t, e);
  }

  lemma {:induction false} ShapeUnderInterleaving(eval: Evaluator, s: State, d: Daemon)
    requires Fresh(s) && Reachable(eval, s, d) && d.callback == Idle
    ensures SameShape(s, State(d.calcs, d.cache))
  {
    ReachableInvariant(eval, s, d);
    CallbacksAreAtomic(eval, s, d);
    RunKeepsShape(eval, s, d.arrived);
    hide RunState, Reachable, Fresh;
  }

  ghost predicate PassOver(d: Daemon) {
    !d.control.Starting? && !d.control.Publishing?
  }

  /**
   * Two daemons of one configuration, between callbacks and after their initial passes, that accepted messages with
   * the same last values, agree on the cache and on every wired calculation, however their threads interleaved.
   */
  lemma {:induction false} HistoryUnderInterleaving(eval: Evaluator, s: State, d: Daemon, e: Daemon)
    requires Fresh(s) && Reachable(eval, s, d) && Reachable(eval, s, e)
    requires d.callback == Idle && e.callback == Idle && PassOver(d) && PassOver(e)
    requires SameLastValues(s, d.arrived, e.arrived)
    ensures d.cache == e.cache && |d.calcs| == |e.calcs| == |s.calcs|
    ensures forall i: nat :: i < |s.calcs| && Wired(s, i) ==> d.calcs[i] == e.calcs[i]
  {
    CallbacksAreAtomic(eval, s, d);
    CallbacksAreAtomic(eval, s, e);
    SameCacheAfter(eval, s, d.arrived, e.arrived);
    ConfiguredAgrees(eval, s);
    hide Reachable, RunState, SameLastValues;
    forall i: nat | i < |s.calcs| && Wired(s, i)
      ensures d.calcs[i] == e.calcs[i]
    {
      HistoryIndependence(eval, s, d.arrived, e.arrived, i);
    }
  }

  /**
   * Replaying what was published and what is queued, last one wins, gives exactly the current value of every set
   * calculation and nothing else, except for a value on its way from its calculation to the queue or the broker.
   */
  lemma {:induction false} ReplayReconstructs(eval: Evaluator, s: State, d: Daemon)
    requires Fresh(s) && Reachable(eval, s, d)
    ensures var replay := Replay(d.published + d.queue);
            && KnownNames(replay, d.calcs)
            && forall i: nat :: i < |d.calcs| && !InFlight(d, i) ==> Shows(replay, d.calcs[i])
  {
    ReachableInvariant(eval, s, d);
    ReplayAppend(d.published, d.queue);
  }
}
