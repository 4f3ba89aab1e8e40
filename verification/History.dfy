/** What a run's history can and cannot influence, and what the engine publishes along it. */
module History {
  import opened Wrappers
  import opened Formula
  import opened Engine
  import opened EngineRuns

  // ----- History independence -----

  lemma {:induction false} UnsetIsUntouched(eval: Evaluator, s: State, es: seq<Event>, i: nat)
    requires i < |s.calcs|
    ensures |RunState(eval, s, es).calcs| == |s.calcs|
    ensures RunState(eval, s, es).calcs[i].isSet || RunState(eval, s, es).calcs[i] == s.calcs[i]
    decreases |es|
  {
    if es == [] {
    } else {
      UnsetIsUntouched(eval, OnCache(eval, s, es[0]).0, es[1..], i);
    }
  }

  /** on_cache never touches a calculation without devices. */
  lemma {:induction false} DeviceFreeIsUntouched(eval: Evaluator, s: State, es: seq<Event>, i: nat)
    requires IndexSound(s) && i < |s.calcs| && s.calcs[i].devices == []
    ensures |RunState(eval, s, es).calcs| == |s.calcs| && RunState(eval, s, es).calcs[i] == s.calcs[i]
    decreases |es|
  {
    if es == [] {
    } else {
      var key, next := EventKey(es[0]), OnCache(eval, s, es[0]).0;
      assert key in s.cache ==> EntrySound(s.calcs, key, s.cache[key].calculs);
      CallbackKeepsShape(eval, s, es[0]);
      ShapeKeepsWiring(s, next);
      DeviceFreeIsUntouched(eval, next, es[1..], i);
    }
  }

  ghost predicate SameLastValues(s: State, es: seq<Event>, fs: seq<Event>) {
    forall k :: k in s.cache ==> LastValue(es, k) == LastValue(fs, k)
  }

  lemma {:induction false} SameCacheAfter(eval: Evaluator, s: State, es: seq<Event>, fs: seq<Event>)
    requires SameLastValues(s, es, fs)
    ensures RunState(eval, s, es).cache == RunState(eval, s, fs).cache
  {
    RunKeepsShape(eval, s, es);
    RunKeepsShape(eval, s, fs);
    forall k | k in s.cache
      ensures RunState(eval, s, es).cache[k] == RunState(eval, s, fs).cache[k]
    {
      RunCache(eval, s, es, k);
      RunCache(eval, s, fs, k);
    }
  }

  /**
   * Two runs that end in the same canonical value for every cached sensor leave a wired calculation the same,
   * whatever the order, the repetitions and the interleaving of their messages, and whatever gaps the index has
   * for other calculations.
   */
  lemma {:induction false} HistoryIndependence(eval: Evaluator, s: State, es: seq<Event>, fs: seq<Event>, i: nat)
    requires IndexSound(s) && i < |s.calcs| && Wired(s, i) && AgreesAt(eval, s, i)
    requires SameLastValues(s, es, fs)
    ensures |RunState(eval, s, es).calcs| == |RunState(eval, s, fs).calcs| == |s.calcs|
    ensures RunState(eval, s, es).calcs[i] == RunState(eval, s, fs).calcs[i]
  {
    hide OnCache, Wired, RunState;
    SameCacheAfter(eval, s, es, fs);
    RunKeepsShape(eval, s, es);
    RunKeepsShape(eval, s, fs);
    if s.calcs[i].devices == [] {
      DeviceFreeIsUntouched(eval, s, es, i);
      DeviceFreeIsUntouched(eval, s, fs, i);
    } else {
      var t, u := RunState(eval, s, es), RunState(eval, s, fs);
      RunKeepsAgreement(eval, s, es, i);
      RunKeepsAgreement(eval, s, fs, i);
      UnsetIsUntouched(eval, s, es, i);
      UnsetIsUntouched(eval, s, fs, i);
      assert Target(eval, t.cache, t.calcs[i]) == Target(eval, u.cache, u.calcs[i]);
    }
  }

  /** With a complete index the whole state is history independent. */
  lemma {:induction false} StateHistoryIndependence(eval: Evaluator, s: State, es: seq<Event>, fs: seq<Event>)
    requires IndexSound(s) && AllWired(s) && AllAgree(eval, s)
    requires SameLastValues(s, es, fs)
    ensures RunState(eval, s, es) == RunState(eval, s, fs)
  {
    SameCacheAfter(eval, s, es, fs);
    UnsetLength(eval, s, es);
    UnsetLength(eval, s, fs);
    forall i: nat | i < |s.calcs|
      ensures RunState(eval, s, es).calcs[i] == RunState(eval, s, fs).calcs[i]
    {
      HistoryIndependence(eval, s, es, fs, i);
    }
  }

  lemma {:induction false} UnsetLength(eval: Evaluator, s: State, es: seq<Event>)
    ensures |RunState(eval, s, es).calcs| == |s.calcs|
  {
    RunKeepsShape(eval, s, es);
  }

  // ----- Exactly which calculations forget their history -----

  /** No sensor of calculation i leads to it. */
  ghost predicate Unindexed(s: State, i: nat)
    requires i < |s.calcs|
  {
    forall k :: k in Keys(s.calcs[i].devices) && k in s.cache ==> i !in s.cache[k].calculs
  }

  lemma {:induction false} UnindexedIsUntouched(eval: Evaluator, s: State, es: seq<Event>, i: nat)
    requires IndexSound(s) && i < |s.calcs| && Unindexed(s, i)
    ensures |RunState(eval, s, es).calcs| == |s.calcs| && RunState(eval, s, es).calcs[i] == s.calcs[i]
    decreases |es|
  {
    if es == [] {
    } else {
      var key, next := EventKey(es[0]), OnCache(eval, s, es[0]).0;
      assert key in s.cache ==> EntrySound(s.calcs, key, s.cache[key].calculs);
      CallbackKeepsShape(eval, s, es[0]);
      ShapeKeepsWiring(s, next);
      UnindexedIsUntouched(eval, next, es[1..], i);
    }
  }

  lemma {:induction false} LastValueSnoc(es: seq<Event>, e: Event, key: string)
    ensures LastValue(es + [e], key) == if EventKey(e) == key then Some(Canonical(e.payload)) else LastValue(es, key)
    decreases |es|
  {
    hide Canonical;
    if es == [] {
      assert [] + [e] == [e];
    } else {
      assert (es + [e])[1..] == es[1..] + [e];
      LastValueSnoc(es[1..], e, key);
    }
  }

  /** Reading the other sensors and then d gives every sensor of the devices the same value, whatever d. */
  ghost function ReadLast(devices: seq<Device>, d: Device): seq<Event> {
    ReadOthers(devices, KeyOf(d)) + [Event(d.server, d.topic, "0")]
  }

  lemma {:induction false} ReadLastReads(devices: seq<Device>, d: Device, key: string)
    requires d in devices
    ensures LastValue(ReadLast(devices, d), key) == if key in Keys(devices) then Some(Canonical("0")) else None
  {
    hide Canonical, LastValue;
    var e := Event(d.server, d.topic, "0");
    LastValueSnoc(ReadOthers(devices, KeyOf(d)), e, key);
    ReadOthersValues(devices, KeyOf(d), key);
    assert EventKey(e) == KeyOf(d) && KeyOf(d) in Keys(devices);
  }

  /** A calculation whose last sensor read leads to it is evaluated. */
  lemma {:induction false} IndexedReadSets(eval: Evaluator, s: State, i: nat, d: Device)
    requires Configured(s) && i < |s.calcs| && d in s.calcs[i].devices
    requires Keys(s.calcs[i].devices) <= s.cache.Keys && i in s.cache[KeyOf(d)].calculs
    ensures var t := RunState(eval, s, ReadLast(s.calcs[i].devices, d));
            |t.calcs| == |s.calcs| && t.calcs[i].isSet
  {
    var key, devices, e := KeyOf(d), s.calcs[i].devices, Event(d.server, d.topic, "0");
    var es := ReadOthers(devices, key);
    var t := RunState(eval, s, es);
    assert key in Keys(devices);
    ReadOthersReads(devices, key);
    RunKeepsShape(eval, s, es);
    StaysUntouched(eval, s, es, i, key);
    RunAppend(eval, s, es, [e]);
    assert RunState(eval, s, es + [e]) == OnCache(eval, t, e).0;
    forall k | k in Keys(devices)
      ensures k in OnCache(eval, t, e).0.cache && OnCache(eval, t, e).0.cache[k].readed
    {
      RunCache(eval, s, es, k);
    }
  }

  lemma {:induction false} MissedReadDoesNot(eval: Evaluator, s: State, i: nat, d: Device)
    requires Configured(s) && i < |s.calcs| && Missed(s, i, d)
    ensures var t := RunState(eval, s, ReadLast(s.calcs[i].devices, d));
            |t.calcs| == |s.calcs| && !t.calcs[i].isSet
  {
    var es, e := ReadOthers(s.calcs[i].devices, KeyOf(d)), Event(d.server, d.topic, "0");
    MissedUpdate(eval, s, i, d);
    RunAppend(eval, s, es, [e]);
    assert RunState(eval, s, es + [e]) == OnCache(eval, RunState(eval, s, es), e).0;
  }

  ghost predicate SameAfter(eval: Evaluator, s: State, i: nat, es: seq<Event>, fs: seq<Event>) {
    var t, u := RunState(eval, s, es), RunState(eval, s, fs);
    i < |s.calcs| == |t.calcs| == |u.calcs| && t.calcs[i] == u.calcs[i]
  }

  /**
   * After configuration, what a calculation with devices holds depends on the last values alone exactly when the
   * index is complete for it or none of its sensors leads to it.
   */
  lemma {:induction false} HistoryIndependentExactly(eval: Evaluator, s: State, i: nat)
    requires Configured(s) && i < |s.calcs| && s.calcs[i].devices != []
    ensures (forall es, fs :: SameLastValues(s, es, fs) ==> SameAfter(eval, s, i, es, fs))
            <==> Wired(s, i) || Unindexed(s, i)
  {
    ConfiguredAgrees(eval, s);
    assert AgreesAt(eval, s, i);
    if Wired(s, i) || Unindexed(s, i) {
      forall es, fs | SameLastValues(s, es, fs)
        ensures SameAfter(eval, s, i, es, fs)
      {
        if Wired(s, i) {
          HistoryIndependence(eval, s, es, fs, i);
        } else {
          UnindexedIsUntouched(eval, s, es, i);
          UnindexedIsUntouched(eval, s, fs, i);
        }
      }
    } else {
      var es, fs := HistoryMatters(eval, s, i);
    }
  }

  /** Otherwise one value per sensor, in two orders, makes the difference: an indexed sensor last, or a missed one. */
  lemma {:induction false} HistoryMatters(eval: Evaluator, s: State, i: nat) returns (es: seq<Event>, fs: seq<Event>)
    requires Configured(s) && i < |s.calcs| && !Wired(s, i) && !Unindexed(s, i)
    ensures SameLastValues(s, es, fs) && !SameAfter(eval, s, i, es, fs)
  {
    var devices := s.calcs[i].devices;
    var missed := UnwiredMisses(s, i);
    var k :| k in Keys(devices) && k in s.cache && i in s.cache[k].calculs;
    var indexed :| indexed in devices && KeyOf(indexed) == k;
    es, fs := ReadLast(devices, indexed), ReadLast(devices, missed);
    IndexedReadSets(eval, s, i, indexed);
    MissedReadDoesNot(eval, s, i, missed);
    forall key | key in s.cache
      ensures LastValue(es, key) == LastValue(fs, key)
    {
      ReadLastReads(devices, indexed, key);
      ReadLastReads(devices, missed, key);
    }
  }

  // ----- Repetitions and spellings -----

  /**
   * The run with every payload in its canonical form and without the messages that repeat the current value of
   * their sensor or concern no cached sensor.
   */
  ghost function Slim(keys: set<string>, current: map<string, string>, es: seq<Event>): seq<Event>
    decreases |es|
  {
    if es == [] then []
    else
      var k, v := EventKey(es[0]), Canonical(es[0].payload);
      if k !in keys || (k in current && current[k] == v) then Slim(keys, current, es[1..])
      else [es[0].(payload := v)] + Slim(keys, current[k := v], es[1..])
  }

  /** The values of the sensors read so far. */
  ghost function Current(cache: Cache): map<string, string> {
    map k | k in cache && cache[k].readed :: cache[k].value
  }

  lemma {:induction false} CallbackCanonical(eval: Evaluator, s: State, e: Event)
    ensures OnCache(eval, s, e.(payload := Canonical(e.payload))) == OnCache(eval, s, e)
  {
    CanonicalIsStable(e.payload);
  }

  /** A message has no effect at all exactly when it is for no cached sensor or repeats the sensor's value. */
  lemma {:induction false} CallbackIdle(eval: Evaluator, s: State, e: Event)
    ensures OnCache(eval, s, e) == (s, []) <==>
      (EventKey(e) in s.cache ==> s.cache[EventKey(e)].readed && s.cache[EventKey(e)].value == Canonical(e.payload))
  {
    hide Canonical;
    var key := EventKey(e);
    var (cache, changed) := UpdateValue(s.cache, key, e.payload);
    if !changed {
      assert cache == s.cache;
    } else {
      assert cache[key] != s.cache[key];
    }
  }

  lemma {:induction false} CurrentAfter(eval: Evaluator, s: State, e: Event)
    requires EventKey(e) in s.cache
    ensures Current(OnCache(eval, s, e).0.cache) == Current(s.cache)[EventKey(e) := Canonical(e.payload)]
  {
    hide Canonical;
  }

  /** Canonicalising payloads and dropping repetitions changes neither the final state nor anything enqueued. */
  lemma {:induction false} SlimRunIsSame(eval: Evaluator, s: State, es: seq<Event>)
    ensures RunState(eval, s, Slim(s.cache.Keys, Current(s.cache), es)) == RunState(eval, s, es)
    ensures RunLog(eval, s, Slim(s.cache.Keys, Current(s.cache), es)) == RunLog(eval, s, es)
    decreases |es|
  {
    hide Canonical, OnCache;
    if es == [] {
    } else {
      var e, keys, current := es[0], s.cache.Keys, Current(s.cache);
      var key, v, next := EventKey(e), Canonical(e.payload), OnCache(eval, s, e).0;
      CallbackIdle(eval, s, e);
      if key !in keys || (key in current && current[key] == v) {
        SlimRunIsSame(eval, s, es[1..]);
        assert [] + RunLog(eval, s, es[1..]) == RunLog(eval, s, es[1..]);
      } else {
        CallbackCanonical(eval, s, e);
        CallbackKeepsShape(eval, s, e);
        CurrentAfter(eval, s, e);
        SlimRunIsSame(eval, next, es[1..]);
        assert Slim(keys, current, es)[1..] == Slim(next.cache.Keys, Current(next.cache), es[1..]);
      }
    }
  }

  /** No message of the reduced run could be dropped: each is in canonical form and has an effect when its turn comes. */
  lemma {:induction false} SlimHasEffect(eval: Evaluator, s: State, es: seq<Event>, j: nat)
    requires j < |Slim(s.cache.Keys, Current(s.cache), es)|
    ensures var slim := Slim(s.cache.Keys, Current(s.cache), es);
            var t := RunState(eval, s, slim[..j]);
            slim[j].payload == Canonical(slim[j].payload) && OnCache(eval, t, slim[j]) != (t, [])
    decreases |es|
  {
    hide Canonical, OnCache;
    var e, keys, current := es[0], s.cache.Keys, Current(s.cache);
    var key, v, next := EventKey(e), Canonical(e.payload), OnCache(eval, s, e).0;
    var slim := Slim(keys, current, es);
    if key !in keys || (key in current && current[key] == v) {
      SlimHasEffect(eval, s, es[1..], j);
    } else {
      var first := e.(payload := v);
      CanonicalIsStable(e.payload);
      CallbackCanonical(eval, s, e);
      if j == 0 {
        CallbackIdle(eval, s, first);
        assert slim[..0] == [];
      } else {
        CallbackKeepsShape(eval, s, e);
        CurrentAfter(eval, s, e);
        var rest := Slim(next.cache.Keys, Current(next.cache), es[1..]);
        assert slim == [first] + rest;
        SlimHasEffect(eval, next, es[1..], j - 1);
        assert slim[..j][0] == first && slim[..j][1..] == rest[..j - 1];
      }
    }
  }

  // ----- Only changes are published -----

  /** The payloads sent under a name. */
  ghost function Payloads(log: seq<Message>, name: string): seq<string> {
    if log == [] then []
    else (if log[0].topic == name then [log[0].payload] else []) + Payloads(log[1..], name)
  }

  lemma {:induction false} PayloadsAppend(a: seq<Message>, b: seq<Message>, name: string)
    ensures Payloads(a + b, name) == Payloads(a, name) + Payloads(b, name)
    decreases |a|
  {
    if a == [] {
      assert a + b == b;
    } else {
      assert (a + b)[1..] == a[1..] + b;
      PayloadsAppend(a[1..], b, name);
    }
  }

  ghost predicate DistinctNames(calcs: seq<Calc>) {
    forall i, j :: 0 <= i < j < |calcs| ==> calcs[i].name != calcs[j].name
  }

  ghost predicate NoRepetition(ps: seq<string>) {
    forall j :: 0 < j < |ps| ==> ps[j - 1] != ps[j]
  }

  /** The value a calculation holds, as a sequence. */
  ghost function Held(c: Calc): seq<string> {
    if c.isSet then [c.value] else []
  }

  // ----- What is sent, and in which order -----

  /** The log gives name and value of exactly the chosen calculations, at[k] in place k, in their own order. */
  ghost predicate ListsAt(log: seq<Message>, calcs: seq<Calc>, chosen: set<nat>, at: seq<nat>) {
    && |at| == |log|
    && (forall j, k :: 0 <= j < k < |at| ==> at[j] < at[k])
    && (forall i :: i in chosen <==> i in at)
    && forall k :: 0 <= k < |at| ==> at[k] < |calcs| && log[k] == Message(calcs[at[k]].name, calcs[at[k]].value)
  }

  ghost predicate Lists(log: seq<Message>, calcs: seq<Calc>, chosen: set<nat>) {
    exists at: seq<nat> :: ListsAt(log, calcs, chosen, at)
  }

  /** Among the first n, the calculations that hold something else than before. */
  ghost function Changed(before: seq<Calc>, after: seq<Calc>, n: nat): set<nat> {
    set i: nat | i < n && i < |before| && i < |after| && Held(before[i]) != Held(after[i])
  }

  lemma {:induction false} ListsNothing(calcs: seq<Calc>)
    ensures Lists([], calcs, {})
  {
    assert ListsAt([], calcs, {}, []);
  }

  lemma {:induction false} RisingOneMore(at: seq<nat>, i: nat)
    requires (forall j, k :: 0 <= j < k < |at| ==> at[j] < at[k]) && forall j :: j in at ==> j < i
    ensures forall j, k :: 0 <= j < k < |at| + 1 ==> (at + [i])[j] < (at + [i])[k]
    ensures forall j :: j in at + [i] <==> j in at || j == i
  {
    assert forall k :: 0 <= k < |at| ==> at[k] in at;
    assert (at + [i])[|at|] == i;
  }

  lemma {:induction false} ListsOneMore(log: seq<Message>, calcs: seq<Calc>, chosen: set<nat>, i: nat)
    requires Lists(log, calcs, chosen) && i < |calcs| && forall j :: j in chosen ==> j < i
    ensures Lists(log + [Message(calcs[i].name, calcs[i].value)], calcs, chosen + {i})
  {
    var at: seq<nat> :| ListsAt(log, calcs, chosen, at);
    var more, last := log + [Message(calcs[i].name, calcs[i].value)], at + [i];
    RisingOneMore(at, i);
    forall k | 0 <= k < |last|
      ensures last[k] < |calcs| && more[k] == Message(calcs[last[k]].name, calcs[last[k]].value)
    {
      if k < |at| {
        assert last[k] == at[k] && more[k] == log[k];
      }
    }
    assert ListsAt(more, calcs, chosen + {i}, last);
  }

  lemma {:induction false} OutputIsChange(eval: Evaluator, cache: Cache, c: Calc)
    ensures var r := Refresh(eval, cache, c);
            Output(eval, cache, c) == if Held(r) == Held(c) then [] else [Message(r.name, r.value)]
  {
    hide Target;
  }

  lemma {:induction false} EmittedLists(eval: Evaluator, cache: Cache, calcs: seq<Calc>, who: set<nat>, n: nat)
    requires n <= |calcs|
    ensures var after := RefreshAll(eval, cache, calcs, who);
            Lists(Emitted(eval, cache, calcs, who, n), after, Changed(calcs, after, n))
  {
    hide Refresh, Output, Lists, Held, RefreshAll;
    var after := RefreshAll(eval, cache, calcs, who);
    if n == 0 {
      ListsNothing(after);
      assert Changed(calcs, after, 0) == {};
    } else {
      var front, all := Changed(calcs, after, n - 1), Changed(calcs, after, n);
      EmittedLists(eval, cache, calcs, who, n - 1);
      OutputIsChange(eval, cache, calcs[n - 1]);
      if n - 1 in all {
        assert all == front + {n - 1};
        ListsOneMore(Emitted(eval, cache, calcs, who, n - 1), after, front, n - 1);
      } else {
        assert all == front;
        assert Emitted(eval, cache, calcs, who, n) == Emitted(eval, cache, calcs, who, n - 1);
      }
    }
  }

  /** One callback sends, in the order of the calculations, name and new value of exactly those that hold a new one. */
  lemma {:induction false} CallbackLists(eval: Evaluator, s: State, e: Event)
    ensures var (t, log) := OnCache(eval, s, e);
            |t.calcs| == |s.calcs| && Lists(log, t.calcs, Changed(s.calcs, t.calcs, |s.calcs|))
  {
    var (cache, changed) := UpdateValue(s.cache, EventKey(e), e.payload);
    assert changed ==> EventKey(e) in cache;
    hide Lists, Emitted, UpdateValue, Held, Refresh;
    if changed {
      EmittedLists(eval, cache, s.calcs, cache[EventKey(e)].calculs, |s.calcs|);
    } else {
      ListsNothing(s.calcs);
      assert Changed(s.calcs, s.calcs, |s.calcs|) == {};
    }
  }

  // ----- What a name sees of it -----

  lemma {:induction false} OutputPayloads(eval: Evaluator, cache: Cache, c: Calc, name: string)
    ensures name != c.name ==> Payloads(Output(eval, cache, c), name) == []
    ensures var ps := Payloads(Output(eval, cache, c), c.name);
            if ps == [] then Held(Refresh(eval, cache, c)) == Held(c)
            else |ps| == 1 && Held(Refresh(eval, cache, c)) == ps != Held(c)
  {
    hide Target;
  }

  /** Of one callback, a name sees just what its own calculation outputs. */
  lemma {:induction false} EmittedPayloads(eval: Evaluator, cache: Cache, calcs: seq<Calc>, who: set<nat>, n: nat, i: nat)
    requires n <= |calcs| && i < |calcs| && DistinctNames(calcs)
    ensures Payloads(Emitted(eval, cache, calcs, who, n), calcs[i].name)
         == if i < n && i in who then Payloads(Output(eval, cache, calcs[i]), calcs[i].name) else []
  {
    hide Output, Payloads, Refresh, Held;
    NoPayloads(calcs[i].name);
    if n == 0 {
    } else {
      var last := if n - 1 in who then Output(eval, cache, calcs[n - 1]) else [];
      EmittedPayloads(eval, cache, calcs, who, n - 1, i);
      PayloadsAppend(Emitted(eval, cache, calcs, who, n - 1), last, calcs[i].name);
      OutputPayloads(eval, cache, calcs[n - 1], calcs[i].name);
    }
  }

  /** One callback sends at most one message per calculation, and only a value that differs from the one held. */
  lemma {:induction false} CallbackSendsChange(eval: Evaluator, s: State, e: Event, i: nat)
    requires i < |s.calcs| && DistinctNames(s.calcs)
    ensures var (t, log) := OnCache(eval, s, e);
            var ps := Payloads(log, s.calcs[i].name);
            && |t.calcs| == |s.calcs|
            && if ps == [] then Held(t.calcs[i]) == Held(s.calcs[i])
               else |ps| == 1 && Held(t.calcs[i]) == ps != Held(s.calcs[i])
  {
    var (cache, changed) := UpdateValue(s.cache, EventKey(e), e.payload);
    assert changed ==> EventKey(e) in cache;
    hide Payloads, Held, Refresh, Output, UpdateValue;
    if changed {
      EmittedPayloads(eval, cache, s.calcs, cache[EventKey(e)].calculs, |s.calcs|, i);
      OutputPayloads(eval, cache, s.calcs[i], s.calcs[i].name);
    }
    NoPayloads(s.calcs[i].name);
  }

  lemma {:induction false} NoPayloads(name: string)
    ensures Payloads([], name) == []
  {
  }

  /**
   * Over a whole run, the values sent for a calculation, behind the one it already held, never repeat
   * themselves, and the last of them is the value it ends with.
   */
  lemma {:induction false} OnlyChangesArePublished(eval: Evaluator, s: State, es: seq<Event>, i: nat)
    requires i < |s.calcs| && DistinctNames(s.calcs)
    ensures var t := RunState(eval, s, es);
            var ps := Held(s.calcs[i]) + Payloads(RunLog(eval, s, es), s.calcs[i].name);
            && |t.calcs| == |s.calcs|
            && NoRepetition(ps)
            && (if ps == [] then !t.calcs[i].isSet else Held(t.calcs[i]) == [ps[|ps| - 1]])
    decreases |es|
  {
    hide OnCache;
    var name := s.calcs[i].name;
    if es == [] {
      NoPayloads(name);
    } else {
      var (next, log) := OnCache(eval, s, es[0]);
      CallbackKeepsShape(eval, s, es[0]);
      CallbackSendsChange(eval, s, es[0], i);
      assert next.calcs[i].name == name;
      assert DistinctNames(next.calcs) by {
        assert forall j :: 0 <= j < |s.calcs| ==> next.calcs[j].name == s.calcs[j].name;
      }
      OnlyChangesArePublished(eval, next, es[1..], i);
      PayloadsAppend(log, RunLog(eval, next, es[1..]), name);
      Prefixed(Held(s.calcs[i]), Payloads(log, name), Held(next.calcs[i]), Payloads(RunLog(eval, next, es[1..]), name));
    }
  }

  lemma {:induction false} Prefixed(held: seq<string>, sent: seq<string>, holds: seq<string>, later: seq<string>)
    requires |held| <= 1
    requires if sent == [] then holds == held else |sent| == 1 && holds == sent != held
    requires NoRepetition(holds + later)
    ensures NoRepetition(held + (sent + later))
    ensures held + (sent + later) == [] <==> holds + later == []
    ensures holds + later != [] ==>
      (held + (sent + later))[|held + (sent + later)| - 1] == (holds + later)[|holds + later| - 1]
  {
    if sent == [] {
      assert held + (sent + later) == holds + later;
    } else {
      assert held + (sent + later) == held + (holds + later);
      assert forall j :: 0 <= j < |holds + later| ==> (held + (holds + later))[|held| + j] == (holds + later)[j];
    }
  }
}
