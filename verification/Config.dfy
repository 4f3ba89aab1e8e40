/**
 * Configuration on values: CacheManager::AddSensor over the bridges and the cache, for any sequence of calls and
 * any outcome of the connection attempts, and the state it leaves to the engine.
 */
module Config {
  import opened Wrappers
  import opened Text
  import opened Formula
  import opened Engine

  /** One AddSensor call; connects says whether a connection opened by this very call would succeed. */
  datatype Request = Request(server: string, topic: string, calcul: nat, connects: bool)

  /** A dependency the call asks for. */
  datatype Triple = Triple(server: string, topic: string, calcul: nat)

  /** MqttBridge: the topics it knows, and the subscriptions that reached the broker, in order. */
  datatype Bridge = Bridge(topics: set<string>, subscribed: seq<string>)

  datatype Network = Network(bridges: map<string, Bridge>, cache: Cache)

  const EMPTY_BRIDGE := Bridge({}, [])
  const EMPTY_NETWORK := Network(map[], map[])

  function TripleOf(r: Request): Triple {
    Triple(r.server, r.topic, r.calcul)
  }

  function TripleKey(t: Triple): string {
    Key(t.server, t.topic)
  }

  /** MqttBridge::Subscribe. */
  function Subscribe(b: Bridge, topic: string): Bridge {
    if topic in b.topics then b else Bridge(b.topics + {topic}, b.subscribed + [topic])
  }

  /** The cache part of AddSensor. */
  function AddDependent(cache: Cache, key: string, calcul: nat): Cache {
    if key !in cache then cache[key := Entry(false, "", {calcul})]
    else cache[key := cache[key].(calculs := cache[key].calculs + {calcul})]
  }

  /** CacheManager::AddSensor: the network afterwards, and what the call returns. */
  function AddSensor(net: Network, r: Request): (Network, bool) {
    if r.server !in net.bridges && !r.connects then (net, false)
    else
      var bridge := if r.server in net.bridges then net.bridges[r.server] else EMPTY_BRIDGE;
      (Network(net.bridges[r.server := Subscribe(bridge, r.topic)],
               AddDependent(net.cache, Key(r.server, r.topic), r.calcul)),
       true)
  }

  /** The network after a sequence of calls. */
  ghost function AddAll(rs: seq<Request>): Network {
    if rs == [] then EMPTY_NETWORK else AddSensor(AddAll(rs[..|rs| - 1]), rs[|rs| - 1]).0
  }

  lemma {:induction false} AddAllSnoc(rs: seq<Request>, r: Request)
    ensures AddAll(rs + [r]) == AddSensor(AddAll(rs), r).0
  {
    assert (rs + [r])[..|rs|] == rs;
  }

  // ----- Which calls succeed -----

  /** Some call so far found the server reachable. */
  ghost predicate Connected(rs: seq<Request>, server: string) {
    exists q :: 0 <= q < |rs| && rs[q].server == server && rs[q].connects
  }

  /** The dependencies of the calls that return true: those not preceded by failures of their server only. */
  ghost function Accepted(rs: seq<Request>): set<Triple> {
    if rs == [] then {}
    else
      var r := rs[|rs| - 1];
      Accepted(rs[..|rs| - 1]) + if Connected(rs, r.server) then {TripleOf(r)} else {}
  }

  lemma {:induction false} ConnectedLast(rs: seq<Request>, r: Request, server: string)
    ensures Connected(rs + [r], server) <==> Connected(rs, server) || (r.server == server && r.connects)
  {
    var all := rs + [r];
    assert all[|rs|] == r;
    assert forall q :: 0 <= q < |rs| ==> all[q] == rs[q];
  }

  /** The server of call q had been reached by then. */
  ghost predicate ReachedBy(rs: seq<Request>, q: nat)
    requires q < |rs|
  {
    exists p :: 0 <= p <= q && rs[p].server == rs[q].server && rs[p].connects
  }

  ghost predicate AcceptedAt(rs: seq<Request>, t: Triple, q: nat) {
    q < |rs| && TripleOf(rs[q]) == t && ReachedBy(rs, q)
  }

  lemma {:induction false} AcceptedInFront(rs: seq<Request>, r: Request, t: Triple, q: nat)
    requires q < |rs|
    ensures AcceptedAt(rs + [r], t, q) <==> AcceptedAt(rs, t, q)
  {
    var all := rs + [r];
    assert forall p :: 0 <= p <= q ==> all[p] == rs[p];
  }

  lemma {:induction false} AcceptedLast(rs: seq<Request>, r: Request, t: Triple)
    ensures AcceptedAt(rs + [r], t, |rs|) <==> TripleOf(r) == t && Connected(rs + [r], r.server)
  {
    var all := rs + [r];
    assert all[|rs|] == r;
  }

  /** A dependency is accepted exactly when one of its calls, or an earlier call for its server, found the server. */
  lemma {:induction false} AcceptedExactly(rs: seq<Request>, t: Triple)
    ensures t in Accepted(rs) <==> exists q: nat :: AcceptedAt(rs, t, q)
    decreases |rs|
  {
    if rs == [] {
    } else {
      var front, r := rs[..|rs| - 1], rs[|rs| - 1];
      assert rs == front + [r];
      AcceptedExactly(front, t);
      AcceptedLast(front, r, t);
      hide AcceptedAt, Connected;
      forall q: nat | q < |front|
        ensures AcceptedAt(rs, t, q) <==> AcceptedAt(front, t, q)
      {
        AcceptedInFront(front, r, t, q);
      }
      AcceptedPositions(front, t);
      AcceptedPositions(rs, t);
    }
  }

  lemma {:induction false} AcceptedPositions(rs: seq<Request>, t: Triple)
    ensures forall q: nat :: AcceptedAt(rs, t, q) ==> q < |rs|
  {
  }

  // ----- The reverse index -----

  ghost function TriplesFor(ts: set<Triple>, key: string): set<nat> {
    set t | t in ts && TripleKey(t) == key :: t.calcul
  }

  /** The cache that indexes a set of dependencies, with nothing read yet. */
  ghost function IndexOfAll(ts: set<Triple>): Cache {
    map k | k in (set t | t in ts :: TripleKey(t)) :: Entry(false, "", TriplesFor(ts, k))
  }

  lemma {:induction false} IndexOneMore(ts: set<Triple>, t: Triple)
    ensures IndexOfAll(ts + {t}) == AddDependent(IndexOfAll(ts), TripleKey(t), t.calcul)
  {
    var more, cache := IndexOfAll(ts + {t}), AddDependent(IndexOfAll(ts), TripleKey(t), t.calcul);
    forall k
      ensures k in more <==> k in cache
    {
      if k in IndexOfAll(ts) {
        var u :| u in ts && TripleKey(u) == k;
        assert u in ts + {t};
      }
      if k == TripleKey(t) {
        assert t in ts + {t};
      }
    }
    forall k | k in more
      ensures more[k] == cache[k]
    {
      if k == TripleKey(t) {
        assert TriplesFor(ts + {t}, k) == TriplesFor(ts, k) + {t.calcul};
        if k !in IndexOfAll(ts) {
          assert forall u :: u in ts ==> TripleKey(u) in IndexOfAll(ts);
          assert TriplesFor(ts, k) == {};
        }
      } else {
        assert TriplesFor(ts + {t}, k) == TriplesFor(ts, k);
      }
    }
  }

  /**
   * The reverse index is exact: after any calls, whatever their order and repetitions, the cache is the index of
   * the accepted dependencies, and a call returned true exactly when its server had been reached.
   */
  lemma {:induction false} IndexIsExact(rs: seq<Request>)
    ensures AddAll(rs).cache == IndexOfAll(Accepted(rs))
    ensures forall server :: server in AddAll(rs).bridges <==> Connected(rs, server)
    decreases |rs|
  {
    if rs != [] {
      var front, r := rs[..|rs| - 1], rs[|rs| - 1];
      assert rs == front + [r];
      IndexIsExact(front);
      forall server
        ensures server in AddAll(rs).bridges <==> Connected(rs, server)
      {
        ConnectedLast(front, r, server);
      }
      ConnectedLast(front, r, r.server);
      IndexOneMore(Accepted(front), TripleOf(r));
      assert AddAll(rs) == AddSensor(AddAll(front), r).0;
      assert Accepted(rs) == if Connected(rs, r.server) then Accepted(front) + {TripleOf(r)} else Accepted(front);
    } else {
      assert IndexOfAll({}) == map[];
    }
  }

  lemma {:induction false} ReturnedTrue(rs: seq<Request>, r: Request)
    ensures AddSensor(AddAll(rs), r).1 <==> Connected(rs + [r], r.server)
  {
    IndexIsExact(rs);
    ConnectedLast(rs, r, r.server);
  }

  /** Every server is either always reachable or never. */
  ghost predicate FixedOutcome(rs: seq<Request>, up: set<string>) {
    forall q :: 0 <= q < |rs| ==> (rs[q].connects <==> rs[q].server in up)
  }

  ghost function Asked(rs: seq<Request>): set<Triple> {
    set q | 0 <= q < |rs| :: TripleOf(rs[q])
  }

  lemma {:induction false} FixedOutcomeAccepts(rs: seq<Request>, up: set<string>)
    requires FixedOutcome(rs, up)
    ensures Accepted(rs) == set t | t in Asked(rs) && t.server in up
    decreases |rs|
  {
    if rs == [] {
    } else {
      var front, r := rs[..|rs| - 1], rs[|rs| - 1];
      FixedOutcomeAccepts(front, up);
      assert Asked(rs) == Asked(front) + {TripleOf(r)} by {
        assert rs == front + [r];
        assert forall q :: 0 <= q < |front| ==> rs[q] == front[q];
        forall t | t in Asked(front)
          ensures t in Asked(rs)
        {
          var q :| 0 <= q < |front| && TripleOf(front[q]) == t;
          assert TripleOf(rs[q]) == t;
        }
      }
    }
  }

  /** With fixed outcomes the index depends on the set of (server, topic, calculation) alone. */
  lemma {:induction false} OrderDoesNotMatter(rs: seq<Request>, qs: seq<Request>, up: set<string>)
    requires FixedOutcome(rs, up) && FixedOutcome(qs, up)
    requires Asked(rs) == Asked(qs)
    ensures AddAll(rs).cache == AddAll(qs).cache
  {
    IndexIsExact(rs);
    IndexIsExact(qs);
    FixedOutcomeAccepts(rs, up);
    FixedOutcomeAccepts(qs, up);
  }

  // ----- Subscriptions -----

  ghost predicate Distinct(xs: seq<string>) {
    forall i, j :: 0 <= i < j < |xs| ==> xs[i] != xs[j]
  }

  ghost predicate BridgeConsistent(b: Bridge) {
    Distinct(b.subscribed) && forall t :: t in b.topics <==> t in b.subscribed
  }

  /** Every cached sensor is subscribed on the bridge of its server. */
  ghost predicate KeySubscribed(net: Network, key: string) {
    exists server, topic :: key == Key(server, topic) && server in net.bridges && topic in net.bridges[server].topics
  }

  ghost predicate Disciplined(net: Network) {
    && (forall server :: server in net.bridges ==> BridgeConsistent(net.bridges[server]))
    && (forall key :: key in net.cache ==> KeySubscribed(net, key))
  }

  lemma {:induction false} SubscribeOnce(b: Bridge, topic: string)
    requires BridgeConsistent(b)
    ensures BridgeConsistent(Subscribe(b, topic))
  {
    if topic !in b.topics {
      assert forall i :: 0 <= i < |b.subscribed| ==> b.subscribed[i] in b.topics;
    }
  }

  lemma {:induction false} AddSensorKeepsDiscipline(net: Network, r: Request)
    requires Disciplined(net)
    ensures Disciplined(AddSensor(net, r).0)
  {
    var (next, accepted) := AddSensor(net, r);
    if accepted {
      SubscribeOnce(if r.server in net.bridges then net.bridges[r.server] else EMPTY_BRIDGE, r.topic);
      forall key | key in next.cache
        ensures KeySubscribed(next, key)
      {
        if key == Key(r.server, r.topic) {
          assert r.topic in next.bridges[r.server].topics;
        } else {
          assert KeySubscribed(net, key);
          var server, topic :| key == Key(server, topic) && server in net.bridges && topic in net.bridges[server].topics;
          assert server in next.bridges && topic in next.bridges[server].topics;
        }
      }
    }
  }

  /**
   * Across any calls a topic is subscribed at most once on each bridge, the subscriptions are exactly the
   * bridge's topics, and every cached sensor is among them.
   */
  lemma {:induction false} SubscriptionDiscipline(rs: seq<Request>)
    ensures Disciplined(AddAll(rs))
    decreases |rs|
  {
    if rs == [] {
    } else {
      SubscriptionDiscipline(rs[..|rs| - 1]);
      AddSensorKeepsDiscipline(AddAll(rs[..|rs| - 1]), rs[|rs| - 1]);
    }
  }

  /** The topic was asked of this server in a call that returned true. */
  ghost predicate AcceptedTopic(rs: seq<Request>, server: string, topic: string) {
    exists calcul :: Triple(server, topic, calcul) in Accepted(rs)
  }

  ghost predicate SubscribedOn(net: Network, server: string, topic: string) {
    server in net.bridges && topic in net.bridges[server].subscribed
  }

  lemma {:induction false} AddSensorSubscribes(net: Network, r: Request, server: string, topic: string)
    requires Disciplined(net)
    ensures SubscribedOn(AddSensor(net, r).0, server, topic) <==>
              SubscribedOn(net, server, topic) || (AddSensor(net, r).1 && server == r.server && topic == r.topic)
  {
  }

  /** The broker of a server is asked for exactly the topics of the calls for that server that returned true. */
  lemma {:induction false} SubscriptionsAreAccepted(rs: seq<Request>, server: string, topic: string)
    ensures SubscribedOn(AddAll(rs), server, topic) <==> AcceptedTopic(rs, server, topic)
    decreases |rs|
  {
    if rs == [] {
    } else {
      var front, r := rs[..|rs| - 1], rs[|rs| - 1];
      assert rs == front + [r];
      SubscriptionsAreAccepted(front, server, topic);
      SubscriptionDiscipline(front);
      AddSensorSubscribes(AddAll(front), r, server, topic);
      ReturnedTrue(front, r);
      var before, after := Accepted(front), Accepted(rs);
      assert after == before + if Connected(rs, r.server) then {TripleOf(r)} else {};
      hide Accepted, AddSensor, Connected;
      assert forall t :: t in before ==> t in after;
      if Connected(rs, r.server) && server == r.server && topic == r.topic {
        assert Triple(server, topic, r.calcul) in after;
      }
    }
  }

  // ----- DaemonConfigure -----

  /** The outcome of the connection attempt made for device j of calculation i. */
  type Outcomes = (nat, nat) -> bool

  function RequestFor(d: Device, i: nat, connects: bool): Request {
    Request(d.server, d.topic, i, connects)
  }

  /** The calls for the first n devices of calculation i. */
  function DeviceRequests(devices: seq<Device>, i: nat, outcomes: Outcomes, n: nat): seq<Request>
    requires n <= |devices|
  {
    if n == 0 then []
    else DeviceRequests(devices, i, outcomes, n - 1) + [RequestFor(devices[n - 1], i, outcomes(i, n - 1))]
  }

  lemma {:induction false} NoDeviceRequests(devices: seq<Device>, i: nat, outcomes: Outcomes)
    ensures DeviceRequests(devices, i, outcomes, 0) == []
  {
  }

  lemma {:induction false} NextDeviceRequest(devices: seq<Device>, i: nat, outcomes: Outcomes, j: nat)
    requires j < |devices|
    ensures DeviceRequests(devices, i, outcomes, j + 1)
         == DeviceRequests(devices, i, outcomes, j) + [RequestFor(devices[j], i, outcomes(i, j))]
  {
  }

  /** The calls of the second loop of DaemonConfigure for the first n calculations. */
  function Requests(calcs: seq<Calc>, outcomes: Outcomes, n: nat): seq<Request>
    requires n <= |calcs|
  {
    if n == 0 then []
    else Requests(calcs, outcomes, n - 1)
         + DeviceRequests(calcs[n - 1].devices, n - 1, outcomes, |calcs[n - 1].devices|)
  }

  lemma {:induction false} NoRequests(calcs: seq<Calc>, outcomes: Outcomes)
    ensures AddAll(Requests(calcs, outcomes, 0)) == EMPTY_NETWORK
  {
  }

  lemma {:induction false} NextRequests(calcs: seq<Calc>, outcomes: Outcomes, i: nat)
    requires i < |calcs|
    ensures Requests(calcs, outcomes, i + 1)
         == Requests(calcs, outcomes, i) + DeviceRequests(calcs[i].devices, i, outcomes, |calcs[i].devices|)
  {
  }

  ghost function ConfiguredState(calcs: seq<Calc>, outcomes: Outcomes): State {
    State(calcs, AddAll(Requests(calcs, outcomes, |calcs|)).cache)
  }

  ghost predicate Uses(calcs: seq<Calc>, i: nat, d: Device) {
    i < |calcs| && d in calcs[i].devices
  }

  lemma {:induction false} DeviceRequestsAre(devices: seq<Device>, i: nat, outcomes: Outcomes, n: nat)
    requires n <= |devices|
    ensures var rs := DeviceRequests(devices, i, outcomes, n);
            && |rs| == n
            && forall j :: 0 <= j < n ==> rs[j] == RequestFor(devices[j], i, outcomes(i, j))
  {
    if n == 0 {
    } else {
      DeviceRequestsAre(devices, i, outcomes, n - 1);
    }
  }

  /** Every call is for a device of the calculation it names. */
  lemma {:induction false} RequestsAreUses(calcs: seq<Calc>, outcomes: Outcomes, n: nat, q: nat)
    requires n <= |calcs| && q < |Requests(calcs, outcomes, n)|
    ensures var r := Requests(calcs, outcomes, n)[q];
            exists d :: Uses(calcs, r.calcul, d) && r.server == d.server && r.topic == d.topic
  {
    if n == 0 {
    } else {
      var front := Requests(calcs, outcomes, n - 1);
      DeviceRequestsAre(calcs[n - 1].devices, n - 1, outcomes, |calcs[n - 1].devices|);
      if q < |front| {
        RequestsAreUses(calcs, outcomes, n - 1, q);
      } else {
        assert Uses(calcs, n - 1, calcs[n - 1].devices[q - |front|]);
      }
    }
  }

  /** Every device is asked for. */
  lemma {:induction false} UsesAreRequested(calcs: seq<Calc>, outcomes: Outcomes, n: nat, i: nat, j: nat) returns (q: nat)
    requires i < n <= |calcs| && j < |calcs[i].devices|
    ensures q < |Requests(calcs, outcomes, n)|
    ensures Requests(calcs, outcomes, n)[q] == RequestFor(calcs[i].devices[j], i, outcomes(i, j))
  {
    DeviceRequestsAre(calcs[n - 1].devices, n - 1, outcomes, |calcs[n - 1].devices|);
    if i == n - 1 {
      q := |Requests(calcs, outcomes, n - 1)| + j;
    } else {
      q := UsesAreRequested(calcs, outcomes, n - 1, i, j);
    }
  }

  lemma {:induction false} AcceptedWereAsked(rs: seq<Request>, t: Triple) returns (q: nat)
    requires t in Accepted(rs)
    ensures q < |rs| && TripleOf(rs[q]) == t
    decreases |rs|
  {
    var front := rs[..|rs| - 1];
    if t in Accepted(front) {
      q := AcceptedWereAsked(front, t);
    } else {
      q := |rs| - 1;
    }
  }

  /** Freshly constructed calculations: parsed from their formulas and unset. */
  ghost predicate Constructed(calcs: seq<Calc>) {
    forall i :: 0 <= i < |calcs| ==> !calcs[i].isSet && Scan(calcs[i].formula, 0) == Success(calcs[i].devices)
  }

  lemma {:induction false} TopicsLackColon(calcs: seq<Calc>, i: nat, d: Device)
    requires Constructed(calcs) && Uses(calcs, i, d)
    ensures Lacks(d.topic, ':')
  {
    ScanSpans(calcs[i].formula);
    var j :| 0 <= j < |calcs[i].devices| && calcs[i].devices[j] == d;
    assert SpanOf(calcs[i].formula, 0, calcs[i].devices[j]);
  }

  /** Whatever the network did, configuration leaves a state the engine can start from. */
  lemma {:induction false} ConfigurationIsConfigured(calcs: seq<Calc>, outcomes: Outcomes)
    requires Constructed(calcs)
    ensures Configured(ConfiguredState(calcs, outcomes))
  {
    var rs := Requests(calcs, outcomes, |calcs|);
    var s := ConfiguredState(calcs, outcomes);
    IndexIsExact(rs);
    forall k | k in s.cache
      ensures EntrySound(calcs, k, s.cache[k].calculs)
    {
      forall i | i in s.cache[k].calculs
        ensures i < |calcs| && k in Keys(calcs[i].devices)
      {
        var t :| t in Accepted(rs) && TripleKey(t) == k && t.calcul == i;
        var q := AcceptedWereAsked(rs, t);
        RequestsAreUses(calcs, outcomes, |calcs|, q);
        var d :| Uses(calcs, i, d) && t.server == d.server && t.topic == d.topic;
        assert KeyOf(d) == k;
      }
    }
  }

  // ----- What the index holds after configuration -----

  /** A call for the sensor of d on behalf of calculation i returned true. */
  ghost predicate AcceptedFor(calcs: seq<Calc>, outcomes: Outcomes, d: Device, i: nat) {
    Triple(d.server, d.topic, i) in Accepted(Requests(calcs, outcomes, |calcs|))
  }

  /** Calculation i has a device of this key that was accepted. */
  ghost predicate AcceptedKey(calcs: seq<Calc>, outcomes: Outcomes, i: nat, key: string) {
    exists d :: Uses(calcs, i, d) && KeyOf(d) == key && AcceptedFor(calcs, outcomes, d, i)
  }

  lemma {:induction false} AcceptedIsUsed(calcs: seq<Calc>, outcomes: Outcomes, t: Triple) returns (d: Device)
    requires t in Accepted(Requests(calcs, outcomes, |calcs|))
    ensures Uses(calcs, t.calcul, d) && d.server == t.server && d.topic == t.topic
    ensures KeyOf(d) == TripleKey(t) && AcceptedFor(calcs, outcomes, d, t.calcul)
  {
    var q := AcceptedWereAsked(Requests(calcs, outcomes, |calcs|), t);
    RequestsAreUses(calcs, outcomes, |calcs|, q);
    d :| Uses(calcs, t.calcul, d) && t.server == d.server && t.topic == d.topic;
  }

  /**
   * After configuration a sensor is cached exactly when some calculation has an accepted device of its key, and
   * its entry then names exactly the calculations that do.
   */
  lemma {:induction false} IndexOfConfiguration(calcs: seq<Calc>, outcomes: Outcomes, key: string)
    ensures var cache := ConfiguredState(calcs, outcomes).cache;
            && (key in cache <==> exists i: nat :: AcceptedKey(calcs, outcomes, i, key))
            && (key in cache ==> forall i: nat :: i in cache[key].calculs <==> AcceptedKey(calcs, outcomes, i, key))
  {
    var rs, cache := Requests(calcs, outcomes, |calcs|), ConfiguredState(calcs, outcomes).cache;
    IndexIsExact(rs);
    hide Requests, Accepted, AddAll, Uses;
    if key in cache {
      var t :| t in Accepted(rs) && TripleKey(t) == key;
      var d := AcceptedIsUsed(calcs, outcomes, t);
      assert AcceptedKey(calcs, outcomes, t.calcul, key);
    }
    forall i: nat
      ensures AcceptedKey(calcs, outcomes, i, key) ==> key in cache && i in cache[key].calculs
      ensures key in cache && i in cache[key].calculs ==> AcceptedKey(calcs, outcomes, i, key)
    {
      if AcceptedKey(calcs, outcomes, i, key) {
        var d :| Uses(calcs, i, d) && KeyOf(d) == key && AcceptedFor(calcs, outcomes, d, i);
        assert TripleKey(Triple(d.server, d.topic, i)) == key;
      }
      if key in cache && i in cache[key].calculs {
        var t :| t in Accepted(rs) && TripleKey(t) == key && t.calcul == i;
        var d := AcceptedIsUsed(calcs, outcomes, t);
      }
    }
  }

  /** Calculation i has a device of this key on one of the servers. */
  ghost predicate UsesKeyOn(calcs: seq<Calc>, servers: set<string>, i: nat, key: string) {
    exists d :: Uses(calcs, i, d) && KeyOf(d) == key && d.server in servers
  }

  /** With servers up or down throughout, the index is exactly who uses what on the servers that are up. */
  lemma {:induction false} IndexOfStableConfiguration(calcs: seq<Calc>, outcomes: Outcomes, up: set<string>, key: string)
    requires FixedOutcome(Requests(calcs, outcomes, |calcs|), up)
    ensures var cache := ConfiguredState(calcs, outcomes).cache;
            && (key in cache <==> exists i: nat :: UsesKeyOn(calcs, up, i, key))
            && (key in cache ==> forall i: nat :: i in cache[key].calculs <==> UsesKeyOn(calcs, up, i, key))
  {
    IndexOfConfiguration(calcs, outcomes, key);
    hide ConfiguredState;
    forall i: nat
      ensures AcceptedKey(calcs, outcomes, i, key) <==> UsesKeyOn(calcs, up, i, key)
    {
      forall d | Uses(calcs, i, d)
        ensures AcceptedFor(calcs, outcomes, d, i) <==> d.server in up
      {
        StableAcceptance(calcs, outcomes, up, i, d);
      }
    }
  }

  lemma {:induction false} StableAcceptance(calcs: seq<Calc>, outcomes: Outcomes, up: set<string>, i: nat, d: Device)
    requires FixedOutcome(Requests(calcs, outcomes, |calcs|), up) && Uses(calcs, i, d)
    ensures AcceptedFor(calcs, outcomes, d, i) <==> d.server in up
  {
    FixedOutcomeAccepts(Requests(calcs, outcomes, |calcs|), up);
    AskedFor(calcs, outcomes, i, d);
  }

  lemma {:induction false} AskedFor(calcs: seq<Calc>, outcomes: Outcomes, i: nat, d: Device)
    requires Uses(calcs, i, d)
    ensures Triple(d.server, d.topic, i) in Asked(Requests(calcs, outcomes, |calcs|))
  {
    var j :| 0 <= j < |calcs[i].devices| && calcs[i].devices[j] == d;
    var q := UsesAreRequested(calcs, outcomes, |calcs|, i, j);
  }

  // ----- When the index is complete -----

  /** The sensor of d was accepted, for whichever calculation. */
  ghost predicate AcceptedForSome(calcs: seq<Calc>, outcomes: Outcomes, d: Device) {
    exists i: nat :: AcceptedFor(calcs, outcomes, d, i)
  }

  /** If every sensor of calculation i was accepted for some calculation, every one was accepted for i itself. */
  ghost predicate CompletelyAccepted(calcs: seq<Calc>, outcomes: Outcomes, i: nat)
    requires i < |calcs|
  {
    (forall d :: d in calcs[i].devices ==> AcceptedForSome(calcs, outcomes, d))
    ==> forall d :: d in calcs[i].devices ==> AcceptedFor(calcs, outcomes, d, i)
  }

  /** Because keys never alias, the entry of a key speaks of the sensor of d only. */
  lemma {:induction false} AcceptedSensor(calcs: seq<Calc>, outcomes: Outcomes, i: nat, d: Device, h: nat)
    requires Constructed(calcs) && Uses(calcs, i, d)
    ensures AcceptedKey(calcs, outcomes, h, KeyOf(d)) <==> AcceptedFor(calcs, outcomes, d, h)
  {
    if AcceptedKey(calcs, outcomes, h, KeyOf(d)) {
      var e :| Uses(calcs, h, e) && KeyOf(e) == KeyOf(d) && AcceptedFor(calcs, outcomes, e, h);
      TopicsLackColon(calcs, i, d);
      TopicsLackColon(calcs, h, e);
      KeysNeverAlias(d.server, d.topic, e.server, e.topic);
    }
    if AcceptedFor(calcs, outcomes, d, h) {
      var e := AcceptedIsUsed(calcs, outcomes, Triple(d.server, d.topic, h));
    }
  }

  lemma {:induction false} DeviceIndexed(calcs: seq<Calc>, outcomes: Outcomes, i: nat, d: Device)
    requires Constructed(calcs) && Uses(calcs, i, d)
    ensures var cache := ConfiguredState(calcs, outcomes).cache;
            && (KeyOf(d) in cache <==> AcceptedForSome(calcs, outcomes, d))
            && (KeyOf(d) in cache ==> (i in cache[KeyOf(d)].calculs <==> AcceptedFor(calcs, outcomes, d, i)))
  {
    IndexOfConfiguration(calcs, outcomes, KeyOf(d));
    hide ConfiguredState, AcceptedKey, AcceptedFor, Constructed, Uses;
    forall h: nat
      ensures AcceptedKey(calcs, outcomes, h, KeyOf(d)) <==> AcceptedFor(calcs, outcomes, d, h)
    {
      AcceptedSensor(calcs, outcomes, i, d, h);
    }
  }

  /** Whatever the network does, the index is complete for a calculation exactly when it is completely accepted. */
  lemma {:induction false} WiredExactly(calcs: seq<Calc>, outcomes: Outcomes, i: nat)
    requires Constructed(calcs) && i < |calcs|
    ensures Wired(ConfiguredState(calcs, outcomes), i) <==> CompletelyAccepted(calcs, outcomes, i)
  {
    var s, devices := ConfiguredState(calcs, outcomes), calcs[i].devices;
    forall d | d in devices
      ensures KeyOf(d) in Keys(devices)
      ensures KeyOf(d) in s.cache <==> AcceptedForSome(calcs, outcomes, d)
      ensures KeyOf(d) in s.cache ==> (i in s.cache[KeyOf(d)].calculs <==> AcceptedFor(calcs, outcomes, d, i))
    {
      DeviceIndexed(calcs, outcomes, i, d);
    }
    CalcsOfConfiguration(calcs, outcomes);
    hide ConfiguredState, AcceptedFor, AcceptedForSome, Constructed;
    forall k | k in Keys(devices)
      ensures exists d :: d in devices && KeyOf(d) == k
    {
    }
  }

  lemma {:induction false} CalcsOfConfiguration(calcs: seq<Calc>, outcomes: Outcomes)
    ensures ConfiguredState(calcs, outcomes).calcs == calcs
  {
  }

  /** When every server is either up or down throughout configuration, the index is complete. */
  lemma {:induction false} StableNetworkWires(calcs: seq<Calc>, outcomes: Outcomes, up: set<string>)
    requires Constructed(calcs)
    requires FixedOutcome(Requests(calcs, outcomes, |calcs|), up)
    ensures AllWired(ConfiguredState(calcs, outcomes))
  {
    hide AcceptedFor, ConfiguredState, Constructed;
    CalcsOfConfiguration(calcs, outcomes);
    forall i: nat | i < |calcs|
      ensures Wired(ConfiguredState(calcs, outcomes), i)
    {
      forall d | d in calcs[i].devices && AcceptedForSome(calcs, outcomes, d)
        ensures AcceptedFor(calcs, outcomes, d, i)
      {
        StableSensor(calcs, outcomes, up, i, d);
      }
      WiredExactly(calcs, outcomes, i);
    }
  }

  lemma {:induction false} StableSensor(calcs: seq<Calc>, outcomes: Outcomes, up: set<string>, i: nat, d: Device)
    requires FixedOutcome(Requests(calcs, outcomes, |calcs|), up)
    requires Uses(calcs, i, d) && AcceptedForSome(calcs, outcomes, d)
    ensures AcceptedFor(calcs, outcomes, d, i)
  {
    var h: nat :| AcceptedFor(calcs, outcomes, d, h);
    var e := AcceptedIsUsed(calcs, outcomes, Triple(d.server, d.topic, h));
    StableAcceptance(calcs, outcomes, up, h, e);
    StableAcceptance(calcs, outcomes, up, i, d);
  }

  /** When all its AddSensor calls returned true, a calculation is wired, whatever happened to the others. */
  lemma {:induction false} AcceptedCalculationIsWired(calcs: seq<Calc>, outcomes: Outcomes, i: nat)
    requires i < |calcs|
    requires forall d :: d in calcs[i].devices ==> AcceptedFor(calcs, outcomes, d, i)
    ensures Wired(ConfiguredState(calcs, outcomes), i)
  {
    var rs := Requests(calcs, outcomes, |calcs|);
    IndexIsExact(rs);
    forall k | k in Keys(calcs[i].devices)
      ensures i in AddAll(rs).cache[k].calculs
    {
      var d :| d in calcs[i].devices && KeyOf(d) == k;
      assert TripleKey(Triple(d.server, d.topic, i)) == k;
    }
  }

  // ----- A server that recovers during configuration -----

  lemma {:induction false} SharedSensorRequests(c0: Calc, c1: Calc, d0: Device, d1: Device, outcomes: Outcomes)
    requires c0.devices == [d0] && c1.devices == [d1]
    ensures Requests([c0, c1], outcomes, 2) == [RequestFor(d0, 0, outcomes(0, 0)), RequestFor(d1, 1, outcomes(1, 0))]
  {
    DeviceRequestsAre([d0], 0, outcomes, 1);
    DeviceRequestsAre([d1], 1, outcomes, 1);
    hide DeviceRequests;
    assert Requests([c0, c1], outcomes, 1) == [] + DeviceRequests([d0], 0, outcomes, 1);
  }

  lemma {:induction false} SecondCallConnects(r0: Request, r1: Request)
    requires !r0.connects && r1.connects
    ensures AddAll([r0, r1]).cache == map[Key(r1.server, r1.topic) := Entry(false, "", {r1.calcul})]
  {
    assert [r0, r1][..1] == [r0] && [r0][..0] == [];
    assert AddAll([r0]) == EMPTY_NETWORK;
  }

  lemma {:induction false} OneEntryWires(calcs: seq<Calc>, key: string, i: nat)
    requires i < |calcs| && Keys(calcs[i].devices) == {key}
    ensures Wired(State(calcs, map[key := Entry(false, "", {1})]), i) <==> i == 1
  {
    assert key in Keys(calcs[i].devices);
  }

  /**
   * A sensor shared by two calculations, whose server is down for the first call and up for the second: the first
   * calculation is left out of the index of a sensor that is cached.
   */
  lemma {:induction false} RecoveringServerLeavesGap(c0: Calc, c1: Calc, d0: Device, d1: Device, outcomes: Outcomes)
    requires c0.devices == [d0] && c1.devices == [d1] && d0.server == d1.server && d0.topic == d1.topic
    requires !outcomes(0, 0) && outcomes(1, 0)
    ensures var s := ConfiguredState([c0, c1], outcomes); !Wired(s, 0) && Wired(s, 1)
  {
    SharedSensorRequests(c0, c1, d0, d1, outcomes);
    SecondCallConnects(RequestFor(d0, 0, false), RequestFor(d1, 1, true));
    assert Keys([d0]) == {KeyOf(d0)} && Keys([d1]) == {KeyOf(d1)};
    hide AddAll, Requests, Wired, Keys;
    OneEntryWires([c0, c1], KeyOf(d1), 0);
    OneEntryWires([c0, c1], KeyOf(d1), 1);
  }
}
