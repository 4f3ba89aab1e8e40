/**
 * Whole runs of the engine: agreement of cache and results, and refinement of full recomputation, hold for every run
 * exactly when the reverse index is complete.
 */
module EngineRuns {
  import opened Wrappers
  import opened Formula
  import opened Engine

  ghost function RunState(eval: Evaluator, s: State, es: seq<Event>): State
    decreases |es|
  {
    if es == [] then s else RunState(eval, OnCache(eval, s, es[0]).0, es[1..])
  }

  /** Everything on_cache enqueues during the run. */
  ghost function RunLog(eval: Evaluator, s: State, es: seq<Event>): seq<Message>
    decreases |es|
  {
    if es == [] then [] else OnCache(eval, s, es[0]).1 + RunLog(eval, OnCache(eval, s, es[0]).0, es[1..])
  }

  lemma {:induction false} RunAppend(eval: Evaluator, s: State, es: seq<Event>, fs: seq<Event>)
    ensures RunState(eval, s, es + fs) == RunState(eval, RunState(eval, s, es), fs)
    ensures RunLog(eval, s, es + fs) == RunLog(eval, s, es) + RunLog(eval, RunState(eval, s, es), fs)
    decreases |es|
  {
    if es == [] {
      assert es + fs == fs;
    } else {
      var (next, log) := OnCache(eval, s, es[0]);
      assert (es + fs)[1..] == es[1..] + fs;
      RunAppend(eval, next, es[1..], fs);
      assert log + (RunLog(eval, next, es[1..]) + RunLog(eval, RunState(eval, s, es), fs))
          == log + RunLog(eval, next, es[1..]) + RunLog(eval, RunState(eval, s, es), fs);
    }
  }

  lemma {:induction false} RunKeepsShape(eval: Evaluator, s: State, es: seq<Event>)
    ensures SameShape(s, RunState(eval, s, es))
    ensures forall i: nat :: i < |s.calcs| ==> (Wired(s, i) <==> Wired(RunState(eval, s, es), i))
    ensures IndexSound(s) ==> IndexSound(RunState(eval, s, es))
    decreases |es|
  {
    if es == [] {
    } else {
      var next := OnCache(eval, s, es[0]).0;
      CallbackKeepsShape(eval, s, es[0]);
      RunKeepsShape(eval, next, es[1..]);
      ShapeIsTransitive(s, next, RunState(eval, s, es));
    }
    ShapeKeepsWiring(s, RunState(eval, s, es));
  }

  lemma {:induction false} ShapeIsTransitive(s: State, t: State, u: State)
    requires SameShape(s, t) && SameShape(t, u)
    ensures SameShape(s, u)
  {
    forall i | 0 <= i < |s.calcs|
      ensures u.calcs[i] == s.calcs[i].(isSet := u.calcs[i].isSet, value := u.calcs[i].value)
    {
      assert t.calcs[i] == s.calcs[i].(isSet := t.calcs[i].isSet, value := t.calcs[i].value);
    }
    forall k | k in s.cache
      ensures s.cache[k].calculs == u.cache[k].calculs
    {
      assert s.cache[k].calculs == t.cache[k].calculs;
    }
  }

  // ----- The cache after a run -----

  /** The canonical payload of the last message for a key. */
  ghost function LastValue(es: seq<Event>, key: string): Option<string>
    decreases |es|
  {
    if es == [] then None
    else
      var later := LastValue(es[1..], key);
      if later.Some? then later
      else if EventKey(es[0]) == key then Some(Canonical(es[0].payload))
      else None
  }

  ghost function Overwrite(entry: Entry, last: Option<string>): Entry {
    match last
    case None => entry
    case Some(v) => Entry(true, v, entry.calculs)
  }

  lemma {:induction false} RunCache(eval: Evaluator, s: State, es: seq<Event>, key: string)
    requires key in s.cache
    ensures key in RunState(eval, s, es).cache
    ensures RunState(eval, s, es).cache[key] == Overwrite(s.cache[key], LastValue(es, key))
    decreases |es|
  {
    hide Canonical;
    if es == [] {
    } else {
      RunCache(eval, OnCache(eval, s, es[0]).0, es[1..], key);
    }
  }

  // ----- What a calculation holds after a run -----

  /** Every sensor of the devices is cached and had a message. */
  ghost predicate AllHeard(s: State, es: seq<Event>, devices: seq<Device>) {
    forall d :: d in devices ==> KeyOf(d) in s.cache && LastValue(es, KeyOf(d)).Some?
  }

  /** For each sensor of the devices, and no other, the canonical payload of its last message. */
  ghost predicate LastValues(es: seq<Event>, devices: seq<Device>, m: map<string, string>) {
    && m.Keys == (set d | d in devices :: KeyOf(d))
    && forall d :: d in devices ==> LastValue(es, KeyOf(d)) == Some(m[KeyOf(d)])
  }

  lemma {:induction false} ReadyIsHeard(eval: Evaluator, s: State, es: seq<Event>, devices: seq<Device>)
    requires forall k :: k in s.cache ==> !s.cache[k].readed
    ensures Ready(RunState(eval, s, es).cache, devices) <==> AllHeard(s, es, devices)
  {
    var t := RunState(eval, s, es);
    RunKeepsShape(eval, s, es);
    forall k | k in s.cache
      ensures k in t.cache && (t.cache[k].readed <==> LastValue(es, k).Some?)
    {
      RunCache(eval, s, es, k);
    }
    hide RunState, LastValue;
    assert forall d :: d in devices ==> KeyOf(d) in Keys(devices);
  }

  lemma {:induction false} ValuesAreLast(eval: Evaluator, s: State, es: seq<Event>, devices: seq<Device>, m: map<string, string>)
    requires AllHeard(s, es, devices) && LastValues(es, devices, m)
    ensures Values(RunState(eval, s, es).cache, devices) == m
  {
    var t := RunState(eval, s, es);
    forall d | d in devices
      ensures KeyOf(d) in t.cache && t.cache[KeyOf(d)].value == m[KeyOf(d)]
    {
      RunCache(eval, s, es, KeyOf(d));
    }
    hide RunState, LastValue;
    assert Keys(devices) == m.Keys;
  }

  /**
   * After any run, a completely indexed calculation with devices is set exactly when all its sensors are cached and
   * had a message, and then holds, in the form of its type, what its formula gives for their last values.
   */
  lemma {:induction false} RunValue(eval: Evaluator, s: State, es: seq<Event>, i: nat, m: map<string, string>)
    requires Configured(s) && i < |s.calcs| && Wired(s, i) && s.calcs[i].devices != []
    ensures var c, t := s.calcs[i], RunState(eval, s, es);
            && |t.calcs| == |s.calcs|
            && (t.calcs[i].isSet <==> AllHeard(s, es, c.devices))
            && (t.calcs[i].isSet && LastValues(es, c.devices, m) ==>
                  StoredForm(c.kind, eval(c.formula, c.devices, m), t.calcs[i].value))
  {
    var c, t := s.calcs[i], RunState(eval, s, es);
    ConfiguredAgrees(eval, s);
    RunKeepsAgreement(eval, s, es, i);
    RunKeepsShape(eval, s, es);
    assert t.calcs[i] == c.(isSet := t.calcs[i].isSet, value := t.calcs[i].value);
    ReadyIsHeard(eval, s, es, c.devices);
    hide RunState, Ready, Values, Normalise, StoredForm, AllHeard, LastValues, Wired;
    if t.calcs[i].isSet && LastValues(es, c.devices, m) {
      ValuesAreLast(eval, s, es, c.devices, m);
      NormaliseMeans(c.kind, eval(c.formula, c.devices, m));
    }
  }

  // ----- Cache/result agreement, exactly when the index is complete -----

  lemma {:induction false} RunKeepsAgreement(eval: Evaluator, s: State, es: seq<Event>, i: nat)
    requires i < |s.calcs| && Wired(s, i) && AgreesAt(eval, s, i)
    ensures |RunState(eval, s, es).calcs| == |s.calcs| && AgreesAt(eval, RunState(eval, s, es), i)
    decreases |es|
  {
    hide Wired, AgreesAt, OnCache;
    if es == [] {
    } else {
      CallbackKeepsShape(eval, s, es[0]);
      ShapeKeepsWiring(s, OnCache(eval, s, es[0]).0);
      CallbackKeepsAgreement(eval, s, es[0], i);
      RunKeepsAgreement(eval, OnCache(eval, s, es[0]).0, es[1..], i);
    }
  }

  lemma {:induction false} ConfiguredAgrees(eval: Evaluator, s: State)
    requires Configured(s)
    ensures AllAgree(eval, s)
  {
    forall i: nat | i < |s.calcs| && s.calcs[i].devices != []
      ensures AgreesAt(eval, s, i)
    {
      assert KeyOf(s.calcs[i].devices[0]) in Keys(s.calcs[i].devices);
    }
  }

  /** Messages that never mention one of its unread sensors leave a calculation untouched. */
  lemma {:induction false} StaysUntouched(eval: Evaluator, s: State, es: seq<Event>, i: nat, key: string)
    requires i < |s.calcs| && key in Keys(s.calcs[i].devices)
    requires key in s.cache && !s.cache[key].readed
    requires forall j :: 0 <= j < |es| ==> EventKey(es[j]) != key
    ensures var t := RunState(eval, s, es);
            i < |t.calcs| && t.calcs[i] == s.calcs[i] && key in t.cache && t.cache[key] == s.cache[key]
    decreases |es|
  {
    if es == [] {
    } else {
      var next := OnCache(eval, s, es[0]).0;
      assert EventKey(es[0]) != key;
      assert !Ready(next.cache, s.calcs[i].devices);
      StaysUntouched(eval, next, es[1..], i, key);
    }
  }

  /** One message for each device that has another key. */
  ghost function ReadOthers(devices: seq<Device>, key: string): seq<Event> {
    if devices == [] then []
    else
      var d := devices[0];
      (if KeyOf(d) == key then [] else [Event(d.server, d.topic, "0")]) + ReadOthers(devices[1..], key)
  }

  lemma {:induction false} ReadOthersValues(devices: seq<Device>, key: string, k: string)
    ensures LastValue(ReadOthers(devices, key), k)
         == if k in Keys(devices) && k != key then Some(Canonical("0")) else None
    decreases |devices|
  {
    hide Canonical;
    if devices == [] {
    } else {
      var rest := ReadOthers(devices[1..], key);
      ReadOthersValues(devices[1..], key, k);
      assert Keys(devices) == {KeyOf(devices[0])} + Keys(devices[1..]);
      if KeyOf(devices[0]) == key {
        assert ReadOthers(devices, key) == rest;
      } else {
        assert ReadOthers(devices, key)[1..] == rest;
      }
    }
  }

  lemma {:induction false} ReadOthersReads(devices: seq<Device>, key: string)
    ensures forall j :: 0 <= j < |ReadOthers(devices, key)| ==> EventKey(ReadOthers(devices, key)[j]) != key
    ensures forall k :: k in Keys(devices) && k != key ==> LastValue(ReadOthers(devices, key), k).Some?
    decreases |devices|
  {
    if devices == [] {
    } else {
      ReadOthersReads(devices[1..], key);
    }
    forall k | k in Keys(devices) && k != key
      ensures LastValue(ReadOthers(devices, key), k).Some?
    {
      ReadOthersValues(devices, key, k);
    }
  }

  /** The event that makes an incomplete index show. */
  ghost predicate Missed(s: State, i: nat, d: Device)
    requires i < |s.calcs|
  {
    && d in s.calcs[i].devices
    && Keys(s.calcs[i].devices) <= s.cache.Keys
    && i !in s.cache[KeyOf(d)].calculs
  }

  lemma {:induction false} UnwiredMisses(s: State, i: nat) returns (d: Device)
    requires i < |s.calcs| && !Wired(s, i)
    ensures Missed(s, i, d)
  {
    var k :| k in Keys(s.calcs[i].devices) && i !in s.cache[k].calculs;
    d :| d in s.calcs[i].devices && KeyOf(d) == k;
  }

  /** All sensors of i but the missed one have been read: i is still unset, and reading the last one changes nothing. */
  lemma {:induction false} MissedUpdate(eval: Evaluator, s: State, i: nat, d: Device)
    requires Configured(s) && i < |s.calcs| && Missed(s, i, d)
    ensures var t := RunState(eval, s, ReadOthers(s.calcs[i].devices, KeyOf(d)));
            var e := Event(d.server, d.topic, "0");
            && |t.calcs| == |s.calcs| && t.calcs[i] == s.calcs[i] && !s.calcs[i].isSet
            && |OnCache(eval, t, e).0.calcs| == |s.calcs| && OnCache(eval, t, e).0.calcs[i] == s.calcs[i]
            && Ready(OnCache(eval, t, e).0.cache, s.calcs[i].devices)
  {
    var key, devices := KeyOf(d), s.calcs[i].devices;
    var es := ReadOthers(devices, key);
    var t, e := RunState(eval, s, es), Event(d.server, d.topic, "0");
    assert key in Keys(devices);
    ReadOthersReads(devices, key);
    RunKeepsShape(eval, s, es);
    StaysUntouched(eval, s, es, i, key);
    forall k | k in Keys(devices)
      ensures k in OnCache(eval, t, e).0.cache && OnCache(eval, t, e).0.cache[k].readed
    {
      RunCache(eval, s, es, k);
    }
  }

  /**
   * Over every run, calculation i is set exactly when all its sensors are read and then holds the value of its
   * formula -- if and only if the index was complete for i after configuration.
   */
  lemma {:induction false} AgreementExactlyWhenWired(eval: Evaluator, s: State, i: nat)
    requires Configured(s) && i < |s.calcs| && s.calcs[i].devices != []
    ensures (forall es :: |RunState(eval, s, es).calcs| == |s.calcs| && AgreesAt(eval, RunState(eval, s, es), i))
            <==> Wired(s, i)
  {
    ConfiguredAgrees(eval, s);
    assert AgreesAt(eval, s, i);
    if Wired(s, i) {
      forall es
        ensures |RunState(eval, s, es).calcs| == |s.calcs| && AgreesAt(eval, RunState(eval, s, es), i)
      {
        RunKeepsAgreement(eval, s, es, i);
      }
    } else {
      var d := UnwiredMisses(s, i);
      var es, e := ReadOthers(s.calcs[i].devices, KeyOf(d)), Event(d.server, d.topic, "0");
      MissedUpdate(eval, s, i, d);
      RunAppend(eval, s, es, [e]);
      assert RunState(eval, s, es + [e]) == OnCache(eval, RunState(eval, s, es), e).0;
      assert !AgreesAt(eval, RunState(eval, s, es + [e]), i);
    }
  }

  /**
   * Incremental evaluation equals full recomputation at every message of every run -- state and messages --
   * if and only if the index was complete after configuration.
   */
  lemma {:induction false} RefinementExactlyWhenWired(eval: Evaluator, s: State)
    requires Configured(s)
    ensures (forall es, e :: OnCache(eval, RunState(eval, s, es), e) == FullRecompute(eval, RunState(eval, s, es), e))
            <==> forall i: nat :: i < |s.calcs| && s.calcs[i].devices != [] ==> Wired(s, i)
  {
    ConfiguredAgrees(eval, s);
    if forall i: nat :: i < |s.calcs| && s.calcs[i].devices != [] ==> Wired(s, i) {
      forall es, e
        ensures OnCache(eval, RunState(eval, s, es), e) == FullRecompute(eval, RunState(eval, s, es), e)
      {
        DeviceFreeIsWired(s);
        ReachableInvariants(eval, s, es);
        IncrementalIsFull(eval, RunState(eval, s, es), e);
      }
    } else {
      var i: nat :| i < |s.calcs| && s.calcs[i].devices != [] && !Wired(s, i);
      var es, e := UnwiredDiffers(eval, s, i);
    }
  }

  lemma {:induction false} UnwiredDiffers(eval: Evaluator, s: State, i: nat) returns (es: seq<Event>, e: Event)
    requires Configured(s) && i < |s.calcs| && s.calcs[i].devices != [] && !Wired(s, i)
    ensures OnCache(eval, RunState(eval, s, es), e) != FullRecompute(eval, RunState(eval, s, es), e)
  {
    var d := UnwiredMisses(s, i);
    es, e := ReadOthers(s.calcs[i].devices, KeyOf(d)), Event(d.server, d.topic, "0");
    var t := RunState(eval, s, es);
    MissedUpdate(eval, s, i, d);
    assert i in Dependents(t.calcs);
    assert FullRecompute(eval, t, e).0.calcs[i].isSet;
  }

  lemma {:induction false} DeviceFreeIsWired(s: State)
    requires forall i: nat :: i < |s.calcs| && s.calcs[i].devices != [] ==> Wired(s, i)
    ensures AllWired(s)
  {
  }

  lemma {:induction false} ReachableInvariants(eval: Evaluator, s: State, es: seq<Event>)
    requires IndexSound(s) && AllWired(s) && AllAgree(eval, s)
    ensures var t := RunState(eval, s, es); IndexSound(t) && AllWired(t) && AllAgree(eval, t)
  {
    RunKeepsShape(eval, s, es);
    forall i: nat | i < |s.calcs|
      ensures AgreesAt(eval, RunState(eval, s, es), i)
    {
      RunKeepsAgreement(eval, s, es, i);
    }
  }
}
