/** src/MqttCalcul as a class: configuration, sensor messages, commands and the daemon loop. */
module MqttCalcul {
  import opened Wrappers
  import opened Numbers
  import opened Formula
  import opened Engine
  import opened EngineRuns
  import opened History
  import opened Calculations
  import opened Calculator
  import opened Caching
  import opened Daemon
  import opened DaemonRuns
  import opened Service
  import Config

  // ----- Walking a set of pointers in address order -----

  lemma {:induction false} LeastFrom(s: set<nat>, k: nat, w: nat)
    requires w in s && forall j :: j in s ==> k <= j
    ensures exists i :: i in s && forall j :: j in s ==> i <= j
    decreases w - k
  {
    if k !in s {
      LeastFrom(s, k + 1, w);
    }
  }

  lemma {:induction false} LeastExists(s: set<nat>)
    requires s != {}
    ensures exists i :: i in s && forall j :: j in s ==> i <= j
  {
    var w :| w in s;
    LeastFrom(s, 0, w);
  }

  /** The walk over who, a set of indices below count, has come past done and has rest to go. */
  ghost predicate Visited(who: set<nat>, done: set<nat>, rest: set<nat>, count: nat) {
    && done + rest == who && (forall i :: i in who ==> i < count)
    && forall i, j :: i in done && j in rest ==> i < j
  }

  lemma {:induction false} VisitStarts(who: set<nat>, count: nat)
    requires forall i :: i in who ==> i < count
    ensures Visited(who, {}, who, count)
  {
  }

  lemma {:induction false} VisitNext(who: set<nat>, done: set<nat>, rest: set<nat>, count: nat, i: nat)
    requires Visited(who, done, rest, count) && i in rest && forall j :: j in rest ==> i <= j
    ensures i < count && i !in done && forall j :: j in done ==> j < i
    ensures Visited(who, done + {i}, rest - {i}, count)
  {
  }

  lemma {:induction false} VisitEnds(who: set<nat>, done: set<nat>, count: nat)
    requires Visited(who, done, {}, count)
    ensures done == who
  {
  }

  /** What is enqueued depends only on which of the calculations seen are in the set. */
  lemma {:induction false} EmittedAgrees(eval: Evaluator, cache: Cache, calcs: seq<Calc>, a: set<nat>, b: set<nat>, n: nat)
    requires n <= |calcs| && forall i :: 0 <= i < n ==> (i in a <==> i in b)
    ensures Emitted(eval, cache, calcs, a, n) == Emitted(eval, cache, calcs, b, n)
  {
    if n == 0 {
    } else {
      EmittedAgrees(eval, cache, calcs, a, b, n - 1);
    }
  }

  /** A calculation behind all others of the set appends its output. */
  lemma {:induction false} EmittedGrows(eval: Evaluator, cache: Cache, calcs: seq<Calc>, done: set<nat>, i: nat, n: nat)
    requires i < n <= |calcs| && forall j :: j in done ==> j < i
    ensures Emitted(eval, cache, calcs, done + {i}, n) == Emitted(eval, cache, calcs, done, n) + Output(eval, cache, calcs[i])
    decreases n
  {
    hide Output;
    var before, after := Emitted(eval, cache, calcs, done, n - 1), Emitted(eval, cache, calcs, done + {i}, n - 1);
    if i == n - 1 {
      EmittedAgrees(eval, cache, calcs, done, done + {i}, n - 1);
    } else {
      EmittedGrows(eval, cache, calcs, done, i, n - 1);
    }
    assert before + [] == before && after + [] == after;
  }

  lemma {:induction false} NobodyEmitted(eval: Evaluator, cache: Cache, calcs: seq<Calc>, who: set<nat>)
    ensures Emitted(eval, cache, calcs, who, 0) == [] && Emitted(eval, cache, calcs, {}, |calcs|) == []
  {
    EmittedByNobody(eval, cache, calcs, |calcs|);
  }

  /** One more round appends that calculation's output to whatever was sent before. */
  lemma {:induction false} EmittedNext(eval: Evaluator, cache: Cache, calcs: seq<Calc>, who: set<nat>, i: nat, sent: seq<Message>)
    requires i < |calcs|
    ensures i in who ==>
      sent + Emitted(eval, cache, calcs, who, i + 1) == sent + Emitted(eval, cache, calcs, who, i) + Output(eval, cache, calcs[i])
    ensures i !in who ==> Emitted(eval, cache, calcs, who, i + 1) == Emitted(eval, cache, calcs, who, i)
  {
    hide Output;
    var before, out := Emitted(eval, cache, calcs, who, i), Output(eval, cache, calcs[i]);
    assert before + [] == before;
    assert sent + (before + out) == sent + before + out;
  }

  lemma {:induction false} NobodyRefreshed(eval: Evaluator, cache: Cache, calcs: seq<Calc>)
    ensures RefreshAll(eval, cache, calcs, {}) == calcs
  {
  }

  lemma {:induction false} RefreshOneMore(eval: Evaluator, cache: Cache, calcs: seq<Calc>, who: set<nat>, i: nat)
    requires i < |calcs| && i !in who
    ensures RefreshAll(eval, cache, calcs, who)[i] == calcs[i]
    ensures RefreshAll(eval, cache, calcs, who + {i})
         == RefreshAll(eval, cache, calcs, who)[i := Refresh(eval, cache, calcs[i])]
  {
    hide Refresh;
  }

  /** The walk has refreshed what it came past, and sent its changed values in order. */
  ghost predicate Swept(eval: Evaluator, cache: Cache, before: seq<Calc>, who: set<nat>, done: set<nat>, rest: set<nat>,
                        calcs: seq<Calc>, sent: seq<Message>)
  {
    && Visited(who, done, rest, |before|)
    && calcs == RefreshAll(eval, cache, before, done)
    && sent == Emitted(eval, cache, before, done, |before|)
  }

  lemma {:induction false} SweptStarts(eval: Evaluator, cache: Cache, before: seq<Calc>, who: set<nat>)
    requires forall i :: i in who ==> i < |before|
    ensures Swept(eval, cache, before, who, {}, who, before, [])
  {
    hide Emitted, RefreshAll, Visited;
    VisitStarts(who, |before|);
    NobodyEmitted(eval, cache, before, who);
    NobodyRefreshed(eval, cache, before);
  }

  lemma {:induction false} SweptNext(eval: Evaluator, cache: Cache, before: seq<Calc>, who: set<nat>, done: set<nat>,
                                     rest: set<nat>, calcs: seq<Calc>, sent: seq<Message>, i: nat)
    requires Swept(eval, cache, before, who, done, rest, calcs, sent)
    requires i in rest && forall j :: j in rest ==> i <= j
    ensures i < |before| == |calcs| && calcs[i] == before[i]
    ensures Swept(eval, cache, before, who, done + {i}, rest - {i},
                  calcs[i := Refresh(eval, cache, calcs[i])], sent + Output(eval, cache, calcs[i]))
  {
    hide Emitted, RefreshAll, Visited, Refresh, Output;
    VisitNext(who, done, rest, |before|, i);
    EmittedGrows(eval, cache, before, done, i, |before|);
    RefreshOneMore(eval, cache, before, done, i);
  }

  lemma {:induction false} SweptAll(eval: Evaluator, cache: Cache, before: seq<Calc>, who: set<nat>, done: set<nat>,
                                    calcs: seq<Calc>, sent: seq<Message>)
    requires Swept(eval, cache, before, who, done, {}, calcs, sent)
    ensures calcs == RefreshAll(eval, cache, before, who) && sent == Emitted(eval, cache, before, who, |before|)
  {
    VisitEnds(who, done, |before|);
  }

  lemma {:induction false} SentOnTop(a: seq<Message>, b: seq<Message>, c: seq<Message>)
    ensures a + (b + c) == a + b + c && a + [] == a
  {
  }

  ghost function Views(calculs: seq<CalculData>): (r: seq<Calc>)
    reads calculs
    ensures |r| == |calculs|
    ensures forall i :: 0 <= i < |calculs| ==> r[i] == calculs[i].View()
  {
    seq(|calculs|, i requires 0 <= i < |calculs| reads calculs => calculs[i].View())
  }

  class MqttCalcul {
    const arithmetic: Arithmetic
    const mainTopic: string
    var calculs: seq<CalculData>
    const cacheManager: CacheManager
    var queue: seq<Message>
    ghost var published: seq<Message>

    ghost function Eval(): Evaluator {
      EvaluatorOf(arithmetic)
    }

    /** The calculations are distinct objects built from their formulas. */
    ghost predicate CalculsValid()
      reads this`calculs
    {
      && (forall i, j :: 0 <= i < j < |calculs| ==> calculs[i] != calculs[j])
      && (forall i :: 0 <= i < |calculs| ==> Scan(calculs[i].formula, 0) == Success(calculs[i].devices))
    }

    /** Besides, every server has its own bridge, and the index holds pointers into the calculations only. */
    ghost predicate Valid()
      reads this`calculs, cacheManager, cacheManager.mqttClients.Values
    {
      && CalculsValid() && cacheManager.Valid()
      && (forall k :: k in cacheManager.cacheDevices ==>
            forall i :: i in cacheManager.cacheDevices[k].calculs ==> i < |calculs|)
    }

    ghost function Calcs(): (r: seq<Calc>)
      reads this`calculs, calculs
      ensures |r| == |calculs|
      ensures forall i :: 0 <= i < |calculs| ==> r[i] == calculs[i].View()
    {
      Views(calculs)
    }

    ghost function View(): State
      reads this`calculs, calculs, cacheManager
    {
      State(Calcs(), cacheManager.cacheDevices)
    }

    constructor (arithmetic: Arithmetic, mainTopic: string)
      ensures Valid() && fresh(cacheManager)
      ensures calculs == [] && queue == [] && published == []
      ensures cacheManager.mqttClients == map[] && cacheManager.View() == Config.EMPTY_NETWORK
      ensures this.arithmetic == arithmetic && this.mainTopic == mainTopic
    {
      this.arithmetic, this.mainTopic := arithmetic, mainTopic;
      calculs, queue, published := [], [], [];
      cacheManager := new CacheManager();
    }

    // ----- Sensor messages -----

    /** The values of the devices, if all of them have been read. */
    method Gather(devices: seq<Device>) returns (allValues: bool, values: map<string, string>)
      ensures allValues <==> Ready(cacheManager.cacheDevices, devices)
      ensures allValues ==> values == Values(cacheManager.cacheDevices, devices)
      ensures var cache := cacheManager.cacheDevices;
              && (allValues <==> forall d :: d in devices ==> KeyOf(d) in cache && cache[KeyOf(d)].readed)
              && (allValues ==>
                    && values.Keys == (set d | d in devices :: KeyOf(d))
                    && forall d :: d in devices ==> values[KeyOf(d)] == cache[KeyOf(d)].value)
    {
      values := map[];
      var cache := cacheManager.cacheDevices;
      for k := 0 to |devices|
        invariant Ready(cache, devices[..k])
        invariant values == Values(cache, devices[..k])
      {
        var key := Key(devices[k].server, devices[k].topic);
        KeysSnoc(devices, k);
        var cacheValue := cacheManager.GetValue(key);
        if !cacheValue.readed {
          return false, map[];
        }
        values := values[key := cacheValue.value];
      }
      assert devices[..|devices|] == devices;
      assert forall d :: d in devices ==> KeyOf(d) in Keys(devices);
      return true, values;
    }

    /** One round of the outer loop of on_cache. */
    method Recompute(i: nat)
      requires CalculsValid() && i < |calculs|
      modifies calculs[i], this`queue
      ensures Calcs() == old(Calcs())[i := Refresh(Eval(), cacheManager.cacheDevices, old(Calcs()[i]))]
      ensures queue == old(queue) + Output(Eval(), cacheManager.cacheDevices, old(Calcs()[i]))
    {
      hide Scan, Atoi, Ready, Values, Views;
      var c := calculs[i];
      var allValues, values := Gather(c.devices);
      if allValues {
        var value := EvaluateCalcul(arithmetic, c.formula, c.devices, values);
        var isNew := c.IsNewValue(value);
        if isNew {
          queue := queue + [Message(c.name, c.value)];
        }
      }
    }

    /** MqttCalcul::on_cache. */
    method OnCache(server: string, topic: string, message: string)
      requires Valid()
      modifies this`queue, cacheManager`cacheDevices, calculs
      ensures Valid()
      ensures (View(), queue) == var (s, log) := Engine.OnCache(Eval(), old(View()), Event(server, topic, message));
                                 (s, old(queue) + log)
      ensures |old(queue)| <= |queue|
      ensures Lists(queue[|old(queue)|..], Calcs(), Changed(old(Calcs()), Calcs(), |calculs|))
    {
      CallbackLists(Eval(), View(), Event(server, topic, message));
      hide Lists, Changed;
      hide Scan, Refresh, Output, Emitted, EvaluatorOf, Views, RefreshAll, Key, Canonical;
      var key := Key(server, topic);
      var changed := cacheManager.UpdateValue(key, message);
      if !changed {
        assert View().calcs == old(View()).calcs;
        assert queue + [] == queue;
        return;
      }
      var cache := cacheManager.cacheDevices;
      var who := cacheManager.GetCalculs(key);
      ghost var before := Calcs();
      Sweep(who);
      assert old(View()).calcs == before;
      assert View().calcs == RefreshAll(Eval(), cache, before, who);
    }

    /** The outer loop of on_cache, over the calculations of one sensor. */
    method Sweep(who: set<nat>)
      requires CalculsValid() && forall i :: i in who ==> i < |calculs|
      modifies this`queue, calculs
      ensures Calcs() == RefreshAll(Eval(), cacheManager.cacheDevices, old(Calcs()), who)
      ensures queue == old(queue) + Emitted(Eval(), cacheManager.cacheDevices, old(Calcs()), who, |calculs|)
    {
      hide *;
      ghost var before, cache, done: set<nat>, sent := Calcs(), cacheManager.cacheDevices, {}, [];
      var rest := who;
      SweptStarts(Eval(), cache, before, who);
      SentOnTop(queue, [], []);
      while rest != {}
        invariant Swept(Eval(), cache, before, who, done, rest, Calcs(), sent)
        invariant queue == old(queue) + sent
        decreases rest
      {
        LeastExists(rest);
        var i :| i in rest && forall j :: j in rest ==> i <= j;
        ghost var output := Output(Eval(), cache, Calcs()[i]);
        SweptNext(Eval(), cache, before, who, done, rest, Calcs(), sent, i);
        SentOnTop(old(queue), sent, output);
        Recompute(i);
        rest, done, sent := rest - {i}, done + {i}, sent + output;
      }
      SweptAll(Eval(), cache, before, who, done, Calcs(), sent);
    }

    // ----- Commands -----

    method MessageForService(msg: string)
      modifies this`queue
      ensures queue == old(queue) + if msg == "REQUEST" then Answers(Calcs(), |calculs|) else []
    {
      if msg != "REQUEST" {
        return;
      }
      ghost var calcs := Calcs();
      for i := 0 to |calculs|
        invariant Calcs() == calcs
        invariant queue == old(queue) + Answers(calcs, i)
      {
        assert calcs[i] == calculs[i].View();
        if calculs[i].isSet {
          queue := queue + [Message(calculs[i].name, calculs[i].value)];
        }
      }
    }

    method MessageForDevice(device: string, msg: string)
      modifies this`queue
      ensures var i := FindName(Calcs(), device);
              queue == old(queue) + if i < |calculs| && msg == "REQUEST" then DeviceAnswer(Calcs()[i]) else []
    {
      var i := 0;
      while i < |calculs| && calculs[i].name != device
        invariant i <= |calculs|
        invariant forall j :: 0 <= j < i ==> calculs[j].name != device
      {
        i := i + 1;
      }
      assert FindName(Calcs(), device) == i;
      if i == |calculs| {
        return;
      }
      if msg == "REQUEST" {
        if !calculs[i].isSet {
          return;
        }
        queue := queue + [Message(calculs[i].name, calculs[i].value)];
      }
    }

    /** MqttCalcul::on_message. */
    method OnMessage(topic: string, message: string)
      modifies this`queue
      ensures queue == old(queue) + Reply(Calcs(), mainTopic, topic, message)
      ensures Answered(Calcs(), mainTopic, topic, message, queue[|old(queue)|..])
    {
      ReplyExactly(Calcs(), mainTopic, topic, message);
      hide Answered, Answers;
      if !(mainTopic <= topic) {
        return;
      }
      var rest := topic[|mainTopic|..];
      if !(COMMAND <= rest) {
        return;
      }
      if |topic| == |mainTopic| + |COMMAND| {
        MessageForService(message);
        return;
      }
      assert topic[|mainTopic| + |COMMAND| + 1..] == rest[|COMMAND| + 1..];
      MessageForDevice(topic[|mainTopic| + |COMMAND| + 1..], message);
    }

    // ----- The daemon thread -----

    /** One round of the initial pass: evaluated on no values, and published at once. */
    method StartOne(i: nat)
      requires i < |calculs| && Scan(calculs[i].formula, 0) == Success(calculs[i].devices) && calculs[i].devices == []
      modifies calculs[i], this`published
      ensures calculs[i].View() == Refresh(Eval(), map[], old(calculs[i].View()))
      ensures published == old(published) + Output(Eval(), map[], old(calculs[i].View()))
    {
      hide Scan, Atoi;
      var c := calculs[i];
      assert Ready(map[], c.devices) && Values(map[], c.devices) == map[];
      var value := EvaluateCalcul(arithmetic, c.formula, c.devices, map[]);
      var isNew := c.IsNewValue(value);
      if isNew {
        published := published + [Message(c.name, c.value)];
      }
    }

    /** The initial pass of DaemonLoop over the calculations without devices. */
    method InitialPass()
      requires CalculsValid()
      modifies this`published, calculs
      ensures Calcs() == RefreshAll(Eval(), map[], old(Calcs()), DeviceFree(old(Calcs())))
      ensures published == old(published) + Emitted(Eval(), map[], old(Calcs()), DeviceFree(old(Calcs())), |calculs|)
      ensures PassedOver(Eval(), old(Calcs()), Calcs()) && |old(published)| <= |published|
      ensures Lists(published[|old(published)|..], Calcs(), Changed(old(Calcs()), Calcs(), |calculs|))
    {
      InitialPassMeans(Eval(), Calcs());
      hide Scan, Refresh, Output, Emitted, EvaluatorOf, PassedOver, Lists, Changed;
      ghost var before := Calcs();
      NobodyEmitted(Eval(), map[], before, DeviceFree(before));
      assert old(published) + [] == published;
      for i := 0 to |calculs|
        invariant forall j :: 0 <= j < |calculs| ==>
          calculs[j].View() == if j in DeviceFree(before) && j < i then Refresh(Eval(), map[], before[j]) else before[j]
        invariant published == old(published) + Emitted(Eval(), map[], before, DeviceFree(before), i)
      {
        EmittedNext(Eval(), map[], before, DeviceFree(before), i, old(published));
        assert before[i].devices == calculs[i].devices;
        if |calculs[i].devices| == 0 {
          StartOne(i);
        }
      }
    }

    /**
     * The waiting loop of DaemonLoop, for any finite sequence of turns: what the other threads enqueue before a
     * wakeup, and what the wakeup says.
     */
    method WaitLoop(turns: seq<Turn>)
      modifies this`queue, this`published
      ensures var s := LoopRun(old(queue), turns); queue == s.queue && published == old(published) + s.sent
    {
      var bStop, bPause, k := false, false, 0;
      assert old(published) + [] == published;
      while !bStop && k < |turns|
        invariant k <= |turns|
        invariant LoopRun(old(queue), turns[..k]).stopped == bStop
        invariant LoopRun(old(queue), turns[..k]).paused == bPause
        invariant queue == LoopRun(old(queue), turns[..k]).queue
        invariant published == old(published) + LoopRun(old(queue), turns[..k]).sent
      {
        assert turns[..k + 1][..k] == turns[..k];
        queue := queue + turns[k].arrivals;
        var cond := turns[k].wake.cond;
        if cond == STATUS_CHANGED {
          match turns[k].wake.status {
            case PAUSE => bPause := true;
            case START => bPause := false; cond := 1;
            case STOP => bStop := true;
          }
        }
        if !bPause && cond == 1 {
          Drain();
        }
        k := k + 1;
      }
      StoppedLoopIdles(old(queue), turns, k);
    }

    /** Publishes the queue from its front until it is empty. */
    method Drain()
      modifies this`queue, this`published
      ensures queue == [] && published == old(published) + old(queue)
    {
      while queue != []
        invariant published + queue == old(published) + old(queue)
        decreases |queue|
      {
        ghost var all := published + queue;
        published := published + [queue[0]];
        queue := queue[1..];
        assert published + queue == all;
      }
      assert published + queue == published;
    }

    // ----- Configuration -----

    /** The first loop of DaemonConfigure. */
    method BuildCalculs(sections: seq<Section>)
      requires Valid() && calculs == [] && cacheManager.cacheDevices == map[]
      modifies this`calculs
      ensures Valid() && fresh(calculs)
      ensures Calcs() == Service.Calcs(sections)
    {
      hide Scan, Views, Build, Service.Calcs;
      CalcsOfNothing();
      for k := 0 to |sections|
        invariant Valid() && fresh(calculs)
        invariant Calcs() == Service.Calcs(sections[..k])
      {
        var s := sections[k];
        assert sections[..k + 1] == sections[..k] + [s];
        CalcsOfMore(sections[..k], s);
        BuildScans(s.name, s.typeName, s.formula);
        if s.name == "mqtt" || s.name == "log" {
          continue;
        }
        var r := CalculData.Create(s.name, s.typeName, s.formula);
        if r.Failure? {
          continue;
        }
        calculs := calculs + [r.value];
      }
      assert sections[..|sections|] == sections;
    }

    /** The calls of AddSensor for the devices of one calculation. */
    method WireOne(i: nat, outcomes: Config.Outcomes, ghost before: seq<Config.Request>)
      requires i < |calculs| && cacheManager.Valid() && cacheManager.View() == Config.AddAll(before)
      modifies cacheManager, cacheManager.mqttClients.Values
      ensures cacheManager.Valid()
      ensures forall b :: b in cacheManager.mqttClients.Values ==> b in old(cacheManager.mqttClients.Values) || fresh(b)
      ensures cacheManager.View()
           == Config.AddAll(before + Config.DeviceRequests(calculs[i].devices, i, outcomes, |calculs[i].devices|))
    {
      hide Config.AddAll, Config.AddSensor, Config.DeviceRequests;
      var devices := calculs[i].devices;
      Config.NoDeviceRequests(devices, i, outcomes);
      assert before + [] == before;
      for j := 0 to |devices|
        invariant cacheManager.Valid()
        invariant forall b :: b in cacheManager.mqttClients.Values ==> b in old(cacheManager.mqttClients.Values) || fresh(b)
        invariant cacheManager.View() == Config.AddAll(before + Config.DeviceRequests(devices, i, outcomes, j))
      {
        ghost var rs := before + Config.DeviceRequests(devices, i, outcomes, j);
        ghost var r := Config.RequestFor(devices[j], i, outcomes(i, j));
        Config.AddAllSnoc(rs, r);
        Config.NextDeviceRequest(devices, i, outcomes, j);
        assert rs + [r] == before + Config.DeviceRequests(devices, i, outcomes, j + 1);
        var ok := cacheManager.AddSensor(devices[j].server, devices[j].topic, i, outcomes(i, j));
      }
    }

    /** The second loop of DaemonConfigure; outcomes are those of the connections it would open. */
    method Wire(outcomes: Config.Outcomes)
      requires cacheManager.Valid() && cacheManager.View() == Config.EMPTY_NETWORK
      modifies cacheManager, cacheManager.mqttClients.Values
      ensures cacheManager.Valid()
      ensures cacheManager.View() == Config.AddAll(Config.Requests(Calcs(), outcomes, |calculs|))
    {
      hide Config.AddAll, Config.AddSensor, Config.DeviceRequests, Config.Requests;
      ghost var calcs := Calcs();
      Config.NoRequests(calcs, outcomes);
      for i := 0 to |calculs|
        invariant cacheManager.Valid()
        invariant forall b :: b in cacheManager.mqttClients.Values ==> b in old(cacheManager.mqttClients.Values) || fresh(b)
        invariant cacheManager.View() == Config.AddAll(Config.Requests(calcs, outcomes, i))
      {
        assert calcs[i].devices == calculs[i].devices;
        Config.NextRequests(calcs, outcomes, i);
        WireOne(i, outcomes, Config.Requests(calcs, outcomes, i));
      }
      assert Calcs() == calcs;
    }

    /** MqttCalcul::DaemonConfigure on a daemon that has not been configured yet. */
    method DaemonConfigure(sections: seq<Section>, outcomes: Config.Outcomes)
      requires Valid() && calculs == [] && cacheManager.View() == Config.EMPTY_NETWORK
      modifies this`calculs, cacheManager, cacheManager.mqttClients.Values
      ensures Valid() && fresh(calculs)
      ensures View() == Config.ConfiguredState(Service.Calcs(sections), outcomes)
    {
      BuildCalculs(sections);
      label built:
      Wire(outcomes);
      assert Calcs() == old@built(Calcs());
      assert Valid() by {
        CalcsAreConstructed(sections);
        Config.ConfigurationIsConfigured(Service.Calcs(sections), outcomes);
        forall k, i | k in cacheManager.cacheDevices && i in cacheManager.cacheDevices[k].calculs
          ensures i < |calculs|
        {
          assert EntrySound(Calcs(), k, View().cache[k].calculs);
        }
      }
    }

    /** MqttCalcul::DaemonLoop: the initial pass, then the waiting loop. */
    method DaemonLoop(turns: seq<Turn>)
      requires CalculsValid()
      modifies this`queue, this`published, calculs
      ensures Calcs() == RefreshAll(Eval(), map[], old(Calcs()), DeviceFree(old(Calcs())))
      ensures var s := LoopRun(old(queue), turns);
              && queue == s.queue
              && published == old(published) + Emitted(Eval(), map[], old(Calcs()), DeviceFree(old(Calcs())), |calculs|) + s.sent
    {
      hide *;
      InitialPass();
      WaitLoop(turns);
    }
  }

  lemma {:induction false} KnownFromLast(pieces: seq<Piece>, es: seq<Event>, m: map<string, string>)
    requires LastValues(es, Layout(pieces, 0), m)
    ensures AllKnown(pieces, m)
  {
    KeysOfLayout(pieces, 0, m);
    assert Keys(Layout(pieces, 0)) == m.Keys;
  }

  /** What a formula gives: the arithmetic of its text, nothing for an empty text. */
  ghost function Result(arithmetic: Arithmetic, text: string): string {
    if text == "" then "" else arithmetic(text)
  }

  lemma {:induction false} EvaluatorMeans(arithmetic: Arithmetic, formula: string, pieces: seq<Piece>, tail: string,
                                          values: map<string, string>)
    requires Generates(pieces, tail, formula) && Plain(tail) && AllKnown(pieces, values)
    ensures EvaluatorOf(arithmetic)(formula, Layout(pieces, 0), values) == Result(arithmetic, Interleave(pieces, tail, values))
  {
    ReadAsPieces(formula, pieces, tail, values);
    EvaluateMeans(arithmetic, formula, Layout(pieces, 0), values);
    hide Scan, Evaluate, Interleave, Generates, Plain, AllKnown;
  }

  /**
   * From the configuration file to the value: after any messages, a completely accepted calculation with sensors is
   * set exactly when all of them were heard, and then holds, in the form of its type, the arithmetic of its formula
   * with every placeholder replaced by the last value of its sensor.
   */
  lemma {:induction false} CalculationMeans(arithmetic: Arithmetic, sections: seq<Section>, outcomes: Config.Outcomes, i: nat,
                                            pieces: seq<Piece>, tail: string, es: seq<Event>, m: map<string, string>)
    requires Complete(sections, outcomes, i) && pieces != []
    requires Generates(pieces, tail, Service.Calcs(sections)[i].formula) && Plain(tail)
    ensures var c, s := Service.Calcs(sections)[i], Start(sections, outcomes);
            var t := RunState(EvaluatorOf(arithmetic), s, es);
            && |t.calcs| == |s.calcs| && c.devices == Layout(pieces, 0)
            && (t.calcs[i].isSet <==> AllHeard(s, es, Layout(pieces, 0)))
            && (t.calcs[i].isSet && LastValues(es, Layout(pieces, 0), m) ==>
                  StoredForm(c.kind, Result(arithmetic, Interleave(pieces, tail, m)), t.calcs[i].value))
  {
    var s, c := Start(sections, outcomes), Service.Calcs(sections)[i];
    CalcsAreConstructed(sections);
    ScanOutcome(pieces, tail, c.formula);
    assert c.devices == Layout(pieces, 0) && c.devices != [];
    Service.WiredExactly(sections, outcomes);
    hide Scan, Complete, Start, Service.Calcs, RunState, StoredForm, Interleave, Generates, Plain, AllHeard, LastValues, Wired, Configured, EvaluatorOf;
    RunValue(EvaluatorOf(arithmetic), s, es, i, m);
    if LastValues(es, Layout(pieces, 0), m) {
      KnownFromLast(pieces, es, m);
      EvaluatorMeans(arithmetic, c.formula, pieces, tail, m);
    }
  }

  /** And so does the daemon, between callbacks, in any interleaving of its threads. */
  lemma {:induction false} DaemonMeans(arithmetic: Arithmetic, sections: seq<Section>, outcomes: Config.Outcomes, i: nat,
                                       pieces: seq<Piece>, tail: string, d: Daemon, m: map<string, string>)
    requires DistinctSections(sections) && Complete(sections, outcomes, i) && pieces != []
    requires Generates(pieces, tail, Service.Calcs(sections)[i].formula) && Plain(tail)
    requires Reachable(EvaluatorOf(arithmetic), Start(sections, outcomes), d) && d.callback == Idle
    ensures var c, s := Service.Calcs(sections)[i], Start(sections, outcomes);
            && |d.calcs| == |s.calcs|
            && (d.calcs[i].isSet <==> AllHeard(s, d.arrived, Layout(pieces, 0)))
            && (d.calcs[i].isSet && LastValues(d.arrived, Layout(pieces, 0), m) ==>
                  StoredForm(c.kind, Result(arithmetic, Interleave(pieces, tail, m)), d.calcs[i].value))
  {
    CalculationMeans(arithmetic, sections, outcomes, i, pieces, tail, d.arrived, m);
    ConfigurationIsFresh(sections, outcomes);
    hide Complete, Service.Calcs, RunState, StoredForm, Interleave, Generates, Plain, AllHeard, LastValues, EvaluatorOf, Reachable, Fresh;
    CallbacksAreAtomic(EvaluatorOf(arithmetic), Start(sections, outcomes), d);
  }

  /** After STOP the loop is over: later turns change nothing. */
  lemma {:induction false} StoppedLoopIdles(queue: seq<Message>, turns: seq<Turn>, k: nat)
    requires k <= |turns| && (k < |turns| ==> LoopRun(queue, turns[..k]).stopped)
    ensures LoopRun(queue, turns) == LoopRun(queue, turns[..k])
    decreases |turns|
  {
    if k < |turns| {
      var front := turns[..|turns| - 1];
      assert front[..k] == turns[..k];
      StoppedLoopIdles(queue, front, k);
    } else {
      assert turns[..k] == turns;
    }
  }
}
