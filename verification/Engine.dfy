/**
 * The incremental recomputation engine on values: the sensor cache with its reverse index (CacheManager), the
 * calculations (CalculData) and the reaction to one sensor message (MqttCalcul::on_cache).
 * A pointer to a calculation is its index in m_Calculs; a set of pointers is walked in that order.
 */
module Engine {
  import opened Wrappers
  import opened Text
  import opened StringTools
  import opened Numbers
  import opened Formula

  datatype CalculType = Switch | Num

  /** CalculData. */
  datatype Calc = Calc(name: string, kind: CalculType, formula: string, devices: seq<Device>, isSet: bool, value: string)

  /** CacheValue: the last value of a sensor and the calculations that depend on it. */
  datatype Entry = Entry(readed: bool, value: string, calculs: set<nat>)

  type Cache = map<string, Entry>

  /** MqttQueue: a result on its way to the broker. */
  datatype Message = Message(topic: string, payload: string)

  /** A sensor message: the arguments of on_cache. */
  datatype Event = Event(server: string, topic: string, payload: string)

  datatype State = State(calcs: seq<Calc>, cache: Cache)

  /** Calculator::Evaluate as any function of the formula, its devices and their values. */
  type Evaluator = (string, seq<Device>, map<string, string>) -> string

  function EventKey(e: Event): string {
    Key(e.server, e.topic)
  }

  /** A topic with a colon makes the key of another server's sensor, the one behind the last colon. */
  lemma {:induction false} KeyOfAnotherSensor(server: string, topic: string) returns (d: Device)
    requires !Lacks(topic, ':')
    ensures Lacks(d.topic, ':') && KeyOf(d) == Key(server, topic) && d.topic != topic
  {
    var key := Key(server, topic);
    var colon := LastIndexOf(key, ':');
    SplitBody(key);
    assert key[|server|] == ':';
    d := Device(key[..colon], key[colon + 1..], 0, 0);
  }

  /**
   * A received message means the sensor it names, and no other server's, for every device a formula can hold,
   * exactly when its topic has no colon.
   */
  lemma {:induction false} EventKeyExactly(e: Event)
    ensures (forall d: Device :: Lacks(d.topic, ':') && KeyOf(d) == EventKey(e) ==> d.server == e.server && d.topic == e.topic)
            <==> Lacks(e.topic, ':')
  {
    if Lacks(e.topic, ':') {
      forall d: Device | Lacks(d.topic, ':') && KeyOf(d) == EventKey(e)
        ensures d.server == e.server && d.topic == e.topic
      {
        KeysNeverAlias(d.server, d.topic, e.server, e.topic);
      }
    } else {
      var d := KeyOfAnotherSensor(e.server, e.topic);
    }
  }

  // ----- The cache -----

  /** The payload as the cache stores it. */
  function Canonical(message: string): string {
    if EqualIgnoringCase(message, "set") then "1"
    else if EqualIgnoringCase(message, "clear") then "0"
    else if EqualIgnoringCase(message, "enable") then "1"
    else if EqualIgnoringCase(message, "disable") then "0"
    else if EqualIgnoringCase(message, "yes") then "1"
    else if EqualIgnoringCase(message, "no") then "0"
    else if EqualIgnoringCase(message, "high") then "1"
    else if EqualIgnoringCase(message, "low") then "0"
    else if EqualIgnoringCase(message, "start") then "1"
    else if EqualIgnoringCase(message, "stop") then "0"
    else if EqualIgnoringCase(message, "on") then "1"
    else if EqualIgnoringCase(message, "off") then "0"
    else message
  }

  const ON_WORDS := ["set", "enable", "yes", "high", "start", "on"]
  const OFF_WORDS := ["clear", "disable", "no", "low", "stop", "off"]

  ghost predicate Spells(message: string, words: seq<string>) {
    exists i :: 0 <= i < |words| && SameIgnoringCase(message, words[i])
  }

  lemma {:induction false} SpellsWords(message: string)
    ensures Spells(message, ON_WORDS) <==>
      SameIgnoringCase(message, "set") || SameIgnoringCase(message, "enable") || SameIgnoringCase(message, "yes")
      || SameIgnoringCase(message, "high") || SameIgnoringCase(message, "start") || SameIgnoringCase(message, "on")
    ensures Spells(message, OFF_WORDS) <==>
      SameIgnoringCase(message, "clear") || SameIgnoringCase(message, "disable") || SameIgnoringCase(message, "no")
      || SameIgnoringCase(message, "low") || SameIgnoringCase(message, "stop") || SameIgnoringCase(message, "off")
  {
    hide SameIgnoringCase;
    assert ON_WORDS[0] == "set" && ON_WORDS[1] == "enable" && ON_WORDS[2] == "yes";
    assert ON_WORDS[3] == "high" && ON_WORDS[4] == "start" && ON_WORDS[5] == "on";
    assert OFF_WORDS[0] == "clear" && OFF_WORDS[1] == "disable" && OFF_WORDS[2] == "no";
    assert OFF_WORDS[3] == "low" && OFF_WORDS[4] == "stop" && OFF_WORDS[5] == "off";
  }

  /** Words of one length differ in their first letters. */
  lemma {:induction false} NoWordMeansBoth(message: string)
    requires Spells(message, ON_WORDS)
    ensures !Spells(message, OFF_WORDS)
  {
    assert forall i, j :: 0 <= i < 6 && 0 <= j < 6 && |ON_WORDS[i]| == |OFF_WORDS[j]| ==>
      ToLower(ON_WORDS[i][0]) != ToLower(OFF_WORDS[j][0]);
  }

  /** What a comparison sees of a payload: its length goes through a 32-bit integer. */
  function Seen(message: string): string {
    message[..|message| % UINT_RANGE]
  }

  lemma {:induction false} ComparisonSees(message: string)
    ensures forall word: string {:trigger EqualIgnoringCase(message, word)} ::
              EqualIgnoringCase(message, word) <==> SameIgnoringCase(Seen(message), word)
  {
    assert |Seen(message)| == |message| % UINT_RANGE;
    assert forall i :: 0 <= i < |Seen(message)| ==> Seen(message)[i] == message[i];
  }

  lemma {:induction false} ShortIsSeen(message: string)
    requires |message| < UINT_RANGE
    ensures Seen(message) == message
  {
  }

  /** Payloads seen as a word for on become 1, as a word for off 0, and the rest stays. */
  lemma {:induction false} CanonicalMeaning(message: string)
    ensures Canonical(message) == if Spells(Seen(message), ON_WORDS) then "1"
                                  else if Spells(Seen(message), OFF_WORDS) then "0" else message
    ensures |message| < UINT_RANGE ==> Seen(message) == message
  {
    hide SameIgnoringCase, EqualIgnoringCase, Spells, Seen;
    SpellsWords(Seen(message));
    ComparisonSees(message);
    if |message| < UINT_RANGE {
      ShortIsSeen(message);
    }
    if Spells(Seen(message), ON_WORDS) {
      NoWordMeansBoth(Seen(message));
    }
  }

  lemma {:induction false} CanonicalIsStable(message: string)
    ensures Canonical(Canonical(message)) == Canonical(message)
  {
    assert Canonical("1") == "1" && Canonical("0") == "0";
    hide EqualIgnoringCase;
  }

  /** CacheManager::UpdateValue: the new cache, and whether anything changed. */
  function UpdateValue(cache: Cache, key: string, message: string): (Cache, bool) {
    if key !in cache then (cache, false)
    else
      var value := Canonical(message);
      var entry := cache[key];
      (cache[key := Entry(true, value, entry.calculs)], !entry.readed || entry.value != value)
  }

  function Keys(devices: seq<Device>): set<string> {
    set d | d in devices :: KeyOf(d)
  }

  lemma {:induction false} KeysSnoc(devices: seq<Device>, k: nat)
    requires k < |devices|
    ensures Keys(devices[..k + 1]) == Keys(devices[..k]) + {KeyOf(devices[k])}
    ensures KeyOf(devices[k]) in Keys(devices)
  {
    assert devices[..k + 1] == devices[..k] + [devices[k]];
  }

  /** Every device of the formula has been read. */
  predicate Ready(cache: Cache, devices: seq<Device>) {
    forall k :: k in Keys(devices) ==> k in cache && cache[k].readed
  }

  function Values(cache: Cache, devices: seq<Device>): map<string, string> {
    map k | k in Keys(devices) && k in cache :: cache[k].value
  }

  // ----- One calculation -----

  /** What IsNewValue stores for an evaluation result. */
  function Normalise(kind: CalculType, value: string): string {
    if kind == Num then value else if Atoi(value) > 0 then "ON" else "OFF"
  }

  /** What a calculation may hold after the evaluation gave text: the text itself, or a switch position. */
  ghost predicate StoredForm(kind: CalculType, text: string, stored: string) {
    match kind
    case Num => stored == text
    case Switch => stored == if ReadsPositive(text) then "ON" else "OFF"
  }

  lemma {:induction false} NormaliseMeans(kind: CalculType, text: string)
    ensures StoredForm(kind, text, Normalise(kind, text))
  {
    AtoiPositiveExactly(text);
  }

  /** A switch is on for a decimal number above zero, with or without plus, and off for everything else. */
  lemma {:induction false} SwitchReadsDecimal(pad: string, n: nat, rest: string, stored: string)
    requires AllSpace(pad)
    ensures NoLeadingDigit(rest) ==>
              && (StoredForm(Switch, pad + (Decimal(n) + rest), stored) <==> stored == if n > 0 then "ON" else "OFF")
              && (StoredForm(Switch, pad + ("+" + (Decimal(n) + rest)), stored) <==> stored == if n > 0 then "ON" else "OFF")
              && (StoredForm(Switch, pad + ("-" + (Decimal(n) + rest)), stored) <==> stored == "OFF")
    ensures NoNumber(rest) ==> (StoredForm(Switch, pad + rest, stored) <==> stored == "OFF")
  {
    var text := Decimal(n) + rest;
    AtoiPositiveExactly(pad + text);
    AtoiPositiveExactly(pad + ("+" + text));
    AtoiPositiveExactly(pad + ("-" + text));
    AtoiPositiveExactly(pad + rest);
    hide ReadsPositive, Atoi, Decimal;
    if NoLeadingDigit(rest) {
      AtoiReadsDecimal(pad, n, rest);
    }
    AtoiWithoutNumber(pad, rest);
  }

  /** The value a calculation should have, given the cache; none before all its devices are read. */
  function Target(eval: Evaluator, cache: Cache, c: Calc): Option<string> {
    if Ready(cache, c.devices)
    then Some(Normalise(c.kind, eval(c.formula, c.devices, Values(cache, c.devices))))
    else None
  }

  predicate IsNew(c: Calc, value: string) {
    !c.isSet || c.value != value
  }

  /** Evaluate, then IsNewValue. */
  function Refresh(eval: Evaluator, cache: Cache, c: Calc): Calc {
    match Target(eval, cache, c)
    case None => c
    case Some(v) => c.(isSet := true, value := v)
  }

  function Output(eval: Evaluator, cache: Cache, c: Calc): seq<Message> {
    match Target(eval, cache, c)
    case None => []
    case Some(v) => if IsNew(c, v) then [Message(c.name, v)] else []
  }

  // ----- One callback -----

  function RefreshAll(eval: Evaluator, cache: Cache, calcs: seq<Calc>, who: set<nat>): (r: seq<Calc>)
    ensures |r| == |calcs|
    ensures forall i :: 0 <= i < |calcs| ==> r[i] == if i in who then Refresh(eval, cache, calcs[i]) else calcs[i]
  {
    seq(|calcs|, i requires 0 <= i < |calcs| => if i in who then Refresh(eval, cache, calcs[i]) else calcs[i])
  }

  /** The messages the first n calculations enqueue, in order. */
  function Emitted(eval: Evaluator, cache: Cache, calcs: seq<Calc>, who: set<nat>, n: nat): seq<Message>
    requires n <= |calcs|
  {
    if n == 0 then []
    else Emitted(eval, cache, calcs, who, n - 1) + if n - 1 in who then Output(eval, cache, calcs[n - 1]) else []
  }

  /** MqttCalcul::on_cache: the new state and the messages enqueued. */
  function OnCache(eval: Evaluator, s: State, e: Event): (State, seq<Message>) {
    var (cache, changed) := UpdateValue(s.cache, EventKey(e), e.payload);
    if !changed then (State(s.calcs, cache), [])
    else
      var who := cache[EventKey(e)].calculs;
      (State(RefreshAll(eval, cache, s.calcs, who), cache), Emitted(eval, cache, s.calcs, who, |s.calcs|))
  }

  /** The calculations that name at least one sensor. */
  function Dependents(calcs: seq<Calc>): set<nat> {
    set i: nat | i < |calcs| && calcs[i].devices != []
  }

  /**
   * What on_cache stands for, without index and without change detection: store the value, recompute every
   * calculation that names a sensor, and send what differs.
   */
  function FullRecompute(eval: Evaluator, s: State, e: Event): (State, seq<Message>) {
    var cache := UpdateValue(s.cache, EventKey(e), e.payload).0;
    var who := Dependents(s.calcs);
    (State(RefreshAll(eval, cache, s.calcs, who), cache), Emitted(eval, cache, s.calcs, who, |s.calcs|))
  }

  // ----- Invariants -----

  /** The reverse index names calculations that do use the sensor. */
  ghost predicate IndexSound(s: State) {
    forall k :: k in s.cache ==> EntrySound(s.calcs, k, s.cache[k].calculs)
  }

  ghost predicate EntrySound(calcs: seq<Calc>, key: string, who: set<nat>) {
    forall i :: i in who ==> i < |calcs| && key in Keys(calcs[i].devices)
  }

  /** The index is complete for calculation i, unless i names a sensor that is not cached at all. */
  ghost predicate Wired(s: State, i: nat)
    requires i < |s.calcs|
  {
    var keys := Keys(s.calcs[i].devices);
    keys <= s.cache.Keys ==> forall k :: k in keys ==> i in s.cache[k].calculs
  }

  ghost predicate AllWired(s: State) {
    forall i: nat :: i < |s.calcs| ==> Wired(s, i)
  }

  /** The calculation is set exactly when all its devices are read, and then holds the value of its formula. */
  ghost predicate Agrees(eval: Evaluator, cache: Cache, c: Calc) {
    match Target(eval, cache, c)
    case None => !c.isSet
    case Some(v) => c.isSet && c.value == v
  }

  ghost predicate AgreesAt(eval: Evaluator, s: State, i: nat)
    requires i < |s.calcs|
  {
    s.calcs[i].devices != [] ==> Agrees(eval, s.cache, s.calcs[i])
  }

  ghost predicate AllAgree(eval: Evaluator, s: State) {
    forall i: nat :: i < |s.calcs| ==> AgreesAt(eval, s, i)
  }

  /** Between configuration and the first sensor message. */
  ghost predicate Configured(s: State) {
    && IndexSound(s)
    && (forall k :: k in s.cache ==> !s.cache[k].readed)
    && (forall i: nat :: i < |s.calcs| && s.calcs[i].devices != [] ==> !s.calcs[i].isSet)
  }

  /** What messages never change. */
  ghost predicate SameShape(s: State, t: State) {
    && |s.calcs| == |t.calcs|
    && (forall i :: 0 <= i < |s.calcs| ==> t.calcs[i] == s.calcs[i].(isSet := t.calcs[i].isSet, value := t.calcs[i].value))
    && s.cache.Keys == t.cache.Keys
    && (forall k :: k in s.cache ==> s.cache[k].calculs == t.cache[k].calculs)
  }

  lemma {:induction false} CallbackKeepsShape(eval: Evaluator, s: State, e: Event)
    ensures SameShape(s, OnCache(eval, s, e).0)
  {
    var t := OnCache(eval, s, e).0;
    forall i | 0 <= i < |s.calcs|
      ensures t.calcs[i] == s.calcs[i].(isSet := t.calcs[i].isSet, value := t.calcs[i].value)
    {
      RefreshKeepsShape(eval, t.cache, s.calcs[i]);
    }
  }

  lemma {:induction false} RefreshKeepsShape(eval: Evaluator, cache: Cache, c: Calc)
    ensures var r := Refresh(eval, cache, c); r == c.(isSet := r.isSet, value := r.value)
  {
  }

  lemma {:induction false} ShapeKeepsWiring(s: State, t: State)
    requires SameShape(s, t)
    ensures IndexSound(s) ==> IndexSound(t)
    ensures forall i: nat :: i < |s.calcs| ==> (Wired(s, i) <==> Wired(t, i))
  {
    assert forall i :: 0 <= i < |t.calcs| ==> t.calcs[i].devices == s.calcs[i].devices;
    if IndexSound(s) {
      forall k | k in t.cache
        ensures EntrySound(t.calcs, k, t.cache[k].calculs)
      {
        assert EntrySound(s.calcs, k, s.cache[k].calculs);
      }
    }
  }

  // ----- One calculation across one callback -----

  lemma {:induction false} ReadyGrows(cache: Cache, key: string, message: string, devices: seq<Device>)
    requires Ready(cache, devices)
    ensures Ready(UpdateValue(cache, key, message).0, devices)
  {
  }

  /** A message that is not for any of its sensors leaves a calculation's target alone. */
  lemma {:induction false} TargetIsLocal(eval: Evaluator, cache: Cache, key: string, message: string, c: Calc)
    requires key !in Keys(c.devices)
    ensures Target(eval, UpdateValue(cache, key, message).0, c) == Target(eval, cache, c)
  {
    var after := UpdateValue(cache, key, message).0;
    assert Values(after, c.devices) == Values(cache, c.devices);
  }

  lemma {:induction false} UnchangedTarget(eval: Evaluator, s: State, e: Event, i: nat)
    requires i < |s.calcs| && Wired(s, i)
    requires var (cache, changed) := UpdateValue(s.cache, EventKey(e), e.payload);
             !changed || i !in cache[EventKey(e)].calculs
    ensures Target(eval, OnCache(eval, s, e).0.cache, s.calcs[i]) == Target(eval, s.cache, s.calcs[i])
  {
    var (cache, changed) := UpdateValue(s.cache, EventKey(e), e.payload);
    if !changed {
      assert cache == s.cache;
    } else if EventKey(e) !in Keys(s.calcs[i].devices) {
      TargetIsLocal(eval, s.cache, EventKey(e), e.payload, s.calcs[i]);
    }
  }

  lemma {:induction false} CallbackKeepsAgreement(eval: Evaluator, s: State, e: Event, i: nat)
    requires i < |s.calcs| && Wired(s, i) && AgreesAt(eval, s, i)
    ensures AgreesAt(eval, OnCache(eval, s, e).0, i)
  {
    var (cache, changed) := UpdateValue(s.cache, EventKey(e), e.payload);
    if !changed || i !in cache[EventKey(e)].calculs {
      UnchangedTarget(eval, s, e, i);
    } else if Ready(s.cache, s.calcs[i].devices) {
      ReadyGrows(s.cache, EventKey(e), e.payload, s.calcs[i].devices);
    }
  }

  // ----- Incremental evaluation against full recomputation -----

  lemma {:induction false} AgreementIsStable(eval: Evaluator, cache: Cache, c: Calc)
    requires Agrees(eval, cache, c)
    ensures Refresh(eval, cache, c) == c && Output(eval, cache, c) == []
  {
  }

  /** Enlarging the set of calculations by ones that agree with the cache enqueues nothing more. */
  lemma {:induction false} EmittedIgnoresAgreement(eval: Evaluator, cache: Cache, calcs: seq<Calc>,
                                                   some: set<nat>, more: set<nat>, n: nat)
    requires n <= |calcs|
    requires forall i :: 0 <= i < n && i in some ==> i in more
    requires forall i :: 0 <= i < n && i in more && i !in some ==> Agrees(eval, cache, calcs[i])
    ensures Emitted(eval, cache, calcs, some, n) == Emitted(eval, cache, calcs, more, n)
  {
    if n == 0 {
    } else {
      EmittedIgnoresAgreement(eval, cache, calcs, some, more, n - 1);
      if n - 1 in more && n - 1 !in some {
        AgreementIsStable(eval, cache, calcs[n - 1]);
      }
    }
  }

  lemma {:induction false} IncrementalIsFull(eval: Evaluator, s: State, e: Event)
    requires IndexSound(s) && AllWired(s) && AllAgree(eval, s)
    ensures OnCache(eval, s, e) == FullRecompute(eval, s, e)
  {
    var (cache, changed) := UpdateValue(s.cache, EventKey(e), e.payload);
    var some := if changed then cache[EventKey(e)].calculs else {};
    var more := Dependents(s.calcs);
    forall i: nat | i < |s.calcs| && i in more && i !in some
      ensures Agrees(eval, cache, s.calcs[i])
      ensures Refresh(eval, cache, s.calcs[i]) == s.calcs[i]
    {
      assert AgreesAt(eval, s, i);
      UnchangedTarget(eval, s, e, i);
      AgreementIsStable(eval, cache, s.calcs[i]);
    }
    forall i | i in some
      ensures i in more
    {
      assert EntrySound(s.calcs, EventKey(e), s.cache[EventKey(e)].calculs);
      assert EventKey(e) in Keys(s.calcs[i].devices);
    }
    EmittedIgnoresAgreement(eval, cache, s.calcs, some, more, |s.calcs|);
    assert RefreshAll(eval, cache, s.calcs, more) == RefreshAll(eval, cache, s.calcs, some);
    if !changed {
      EmittedByNobody(eval, cache, s.calcs, |s.calcs|);
      assert RefreshAll(eval, cache, s.calcs, {}) == s.calcs;
    }
  }

  lemma {:induction false} EmittedByNobody(eval: Evaluator, cache: Cache, calcs: seq<Calc>, n: nat)
    requires n <= |calcs|
    ensures Emitted(eval, cache, calcs, {}, n) == []
  {
    if n == 0 {
    } else {
      EmittedByNobody(eval, cache, calcs, n - 1);
    }
  }
}
