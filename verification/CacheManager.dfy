/** src/MqttBridge and src/CacheManager as classes, proved against the configuration and engine functions. */
module Caching {
  import opened StringTools
  import opened Formula
  import opened Engine
  import Config

  /** One connection to a foreign broker. The log holds the subscriptions that reached it. */
  class MqttBridge {
    const server: string
    var topics: set<string>
    ghost var subscribed: seq<string>

    ghost function View(): Config.Bridge
      reads this
    {
      Config.Bridge(topics, subscribed)
    }

    constructor (server: string)
      ensures this.server == server && View() == Config.EMPTY_BRIDGE
    {
      this.server := server;
      topics := {};
      subscribed := [];
    }

    method Subscribe(topic: string)
      modifies this
      ensures View() == Config.Subscribe(old(View()), topic)
    {
      if topic in topics {
        return;
      }
      topics := topics + {topic};
      subscribed := subscribed + [topic];
    }
  }

  class CacheManager {
    var mqttClients: map<string, MqttBridge>
    var cacheDevices: Cache

    /** Every server has a bridge of its own. */
    ghost predicate Valid()
      reads this, mqttClients.Values
    {
      forall s, t :: s in mqttClients && t in mqttClients && s != t ==> mqttClients[s] != mqttClients[t]
    }

    ghost function Bridges(): map<string, Config.Bridge>
      reads this, mqttClients.Values
    {
      map s | s in mqttClients :: mqttClients[s].View()
    }

    ghost function View(): Config.Network
      reads this, mqttClients.Values
    {
      Config.Network(Bridges(), cacheDevices)
    }

    constructor ()
      ensures Valid() && mqttClients == map[] && View() == Config.EMPTY_NETWORK
    {
      mqttClients, cacheDevices := map[], map[];
    }

    ghost function BridgeBefore(server: string): Config.Bridge
      reads this, mqttClients.Values
    {
      if server in mqttClients then mqttClients[server].View() else Config.EMPTY_BRIDGE
    }

    /** Finds the bridge of a server or connects a new one; connects is the outcome of that connection. */
    method FindBridge(server: string, connects: bool) returns (found: bool)
      requires Valid()
      modifies this`mqttClients
      ensures Valid()
      ensures found <==> server in old(mqttClients) || connects
      ensures !found ==> mqttClients == old(mqttClients)
      ensures found ==> server in mqttClients && Bridges() == old(Bridges())[server := old(BridgeBefore(server))]
      ensures forall b :: b in mqttClients.Values ==> b in old(mqttClients.Values) || fresh(b)
    {
      if server in mqttClients {
        return true;
      }
      if !connects {
        return false;
      }
      var bridge := new MqttBridge(server);
      mqttClients := mqttClients[server := bridge];
      return true;
    }

    method SubscribeOn(server: string, topic: string)
      requires Valid() && server in mqttClients
      modifies mqttClients[server]
      ensures Valid()
      ensures Bridges() == old(Bridges())[server := Config.Subscribe(old(Bridges())[server], topic)]
    {
      mqttClients[server].Subscribe(topic);
    }

    /** connects is the outcome of the connection a new bridge would open. */
    method AddSensor(server: string, topic: string, pCalcul: nat, connects: bool) returns (ok: bool)
      requires Valid()
      modifies this, mqttClients.Values
      ensures Valid()
      ensures forall b :: b in mqttClients.Values ==> b in old(mqttClients.Values) || fresh(b)
      ensures (View(), ok) == Config.AddSensor(old(View()), Config.Request(server, topic, pCalcul, connects))
    {
      ok := FindBridge(server, connects);
      if ok {
        SubscribeOn(server, topic);
        assert Bridges() == old(Bridges())[server := Config.Subscribe(old(BridgeBefore(server)), topic)];
        label subscribed:
        AddDependent(Key(server, topic), pCalcul);
        assert Bridges() == old@subscribed(Bridges());
      }
    }

    /** The cache part of AddSensor. */
    method AddDependent(key: string, pCalcul: nat)
      modifies this`cacheDevices
      ensures cacheDevices == Config.AddDependent(old(cacheDevices), key, pCalcul)
      ensures key in cacheDevices && pCalcul in cacheDevices[key].calculs
      ensures forall k :: k in cacheDevices && k != key ==> k in old(cacheDevices) && cacheDevices[k] == old(cacheDevices)[k]
      ensures forall k :: k in old(cacheDevices) ==>
                && k in cacheDevices
                && cacheDevices[k] == old(cacheDevices)[k].(calculs := cacheDevices[k].calculs)
                && old(cacheDevices)[k].calculs <= cacheDevices[k].calculs <= old(cacheDevices)[k].calculs + {pCalcul}
    {
      if key !in cacheDevices {
        cacheDevices := cacheDevices[key := Entry(false, "", {pCalcul})];
        return;
      }
      var entry := cacheDevices[key];
      if pCalcul !in entry.calculs {
        cacheDevices := cacheDevices[key := entry.(calculs := entry.calculs + {pCalcul})];
      } else {
        assert entry.calculs + {pCalcul} == entry.calculs;
        assert cacheDevices[key := entry] == cacheDevices;
      }
    }

    /** Stores a canonical payload; true when the sensor is cached and was unread or had another value. */
    method UpdateValue(key: string, message: string) returns (changed: bool)
      modifies this`cacheDevices
      ensures (cacheDevices, changed) == Engine.UpdateValue(old(cacheDevices), key, message)
    {
      if key !in cacheDevices {
        return false;
      }
      var value := Canonicalise(message);
      var entry := cacheDevices[key];
      changed := !entry.readed || entry.value != value;
      cacheDevices := cacheDevices[key := Entry(true, value, entry.calculs)];
    }

    method GetValue(key: string) returns (entry: Entry)
      ensures entry == if key in cacheDevices then cacheDevices[key] else Entry(false, "", {})
    {
      if key !in cacheDevices {
        return Entry(false, "", {});
      }
      return cacheDevices[key];
    }

    method GetCalculs(key: string) returns (calculs: set<nat>)
      ensures calculs == if key in cacheDevices then cacheDevices[key].calculs else {}
    {
      if key !in cacheDevices {
        return {};
      }
      return cacheDevices[key].calculs;
    }
  }

  /** The chain of comparisons in UpdateValue. */
  method Canonicalise(message: string) returns (value: string)
    ensures value == Canonical(message)
  {
    hide EqualIgnoringCase;
    value := message;
    var same := IsEqualCaseInsensitive(message, "set");
    if same { return "1"; }
    same := IsEqualCaseInsensitive(message, "clear");
    if same { return "0"; }
    same := IsEqualCaseInsensitive(message, "enable");
    if same { return "1"; }
    same := IsEqualCaseInsensitive(message, "disable");
    if same { return "0"; }
    same := IsEqualCaseInsensitive(message, "yes");
    if same { return "1"; }
    same := IsEqualCaseInsensitive(message, "no");
    if same { return "0"; }
    same := IsEqualCaseInsensitive(message, "high");
    if same { return "1"; }
    same := IsEqualCaseInsensitive(message, "low");
    if same { return "0"; }
    same := IsEqualCaseInsensitive(message, "start");
    if same { return "1"; }
    same := IsEqualCaseInsensitive(message, "stop");
    if same { return "0"; }
    same := IsEqualCaseInsensitive(message, "on");
    if same { return "1"; }
    same := IsEqualCaseInsensitive(message, "off");
    if same { return "0"; }
  }
}
