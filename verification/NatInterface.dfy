/** The NAT operations of a network interface, updating the tables in place. */
module NatInterface {
  import opened Words
  import opened Options
  import opened Nat

  /** Which of NatAddFlow's allocations succeed; flowAt is where the flow is placed, 0 for nowhere. */
  datatype Memory = Memory(portAlloc: bool, portMap: bool, portAllocSet: bool, portSet: bool, flowAt: nat,
                           lanSet: bool, wanSet: bool)

  class NetIf {
    const symmetric: bool
    const mappings: seq<Mapping>
    var ipAddr: u32
    var tcpServices: set<u16>
    var udpServices: set<u16>
    var lan: map<LanKey, nat>
    var wan: map<WanKey, nat>
    var flows: map<nat, Flow>
    var ports: map<u32, set<u16>>

    ghost function T(): Tables
      reads this
    {
      Tables(lan, wan, flows, ports)
    }

    ghost predicate Valid()
      reads this
    {
      Agree(T(), mappings)
    }

    constructor (symmetric: bool, mappings: seq<Mapping>, ipAddr: u32)
      ensures Valid() && T() == Tables(map[], map[], map[], map[])
    {
      this.symmetric, this.mappings, this.ipAddr := symmetric, mappings, ipAddr;
      tcpServices, udpServices := {}, {};
      lan, wan, flows, ports := map[], map[], map[], map[];
    }

    // ---- Keys ---------------------------------------------------------------------------------

    /** Symmetric NAT keys a flow by its remote; full cone ignores the remote. ICMP has no remote port. */
    function RemoteIp(remoteIp: u32): u32 {
      if symmetric then remoteIp else 0
    }

    function RemotePort(remotePort: u16, proto: byte): u16 {
      if symmetric && proto != PROTO_ICMP then remotePort else 0
    }

    function Lan(remoteIp: u32, remotePort: u16, lanIp: u32, lanPort: u16, proto: byte): LanKey {
      LanKey(RemoteIp(remoteIp), RemotePort(remotePort, proto), lanIp, lanPort, proto)
    }

    function Wan(remoteIp: u32, remotePort: u16, wanIp: u32, wanPort: u16, proto: byte): WanKey {
      WanKey(RemoteIp(remoteIp), RemotePort(remotePort, proto), wanIp, wanPort, proto)
    }

    // ---- Lookups ------------------------------------------------------------------------------

    method GetFlowByHash(remoteIp: u32, remotePort: u16, lanIp: u32, lanPort: u16, proto: byte, now: u32)
      returns (r: Option<Flow>)
      requires Valid()
      modifies this`flows
      ensures Valid()
      ensures var k := Lan(remoteIp, remotePort, lanIp, lanPort, proto);
              if k in lan then T() == Touched(old(T()), lan[k], now) && r == Some(flows[lan[k]])
              else T() == old(T()) && r == None
    {
      hide Mapped, PortsHeld, Unshadowed;
      var k := Lan(remoteIp, remotePort, lanIp, lanPort, proto);
      r := None;
      if k in lan {
        TouchedAgrees(T(), mappings, lan[k], now);
        flows := flows[lan[k] := flows[lan[k]].(alive := now)];
        r := Some(flows[lan[k]]);
      }
    }

    method GetFlowByWan(remoteIp: u32, remotePort: u16, wanIp: u32, wanPort: u16, proto: byte, now: u32)
      returns (r: Option<Flow>)
      requires Valid()
      modifies this`flows
      ensures Valid()
      ensures var k := Wan(remoteIp, remotePort, wanIp, wanPort, proto);
              if k in wan then T() == Touched(old(T()), wan[k], now) && r == Some(flows[wan[k]])
              else T() == old(T()) && r == None
    {
      hide Mapped, PortsHeld, Unshadowed;
      var k := Wan(remoteIp, remotePort, wanIp, wanPort, proto);
      r := None;
      if k in wan {
        TouchedAgrees(T(), mappings, wan[k], now);
        flows := flows[wan[k] := flows[wan[k]].(alive := now)];
        r := Some(flows[wan[k]]);
      }
    }

    /** The reply to a translated packet finds the flow that translated it, and so the host it came from. */
    lemma ReplyFindsHost(remoteIp: u32, remotePort: u16, lanIp: u32, lanPort: u16, proto: byte)
      requires Valid() && Lan(remoteIp, remotePort, lanIp, lanPort, proto) in lan
      ensures var id := lan[Lan(remoteIp, remotePort, lanIp, lanPort, proto)];
              && id in flows
              && Wan(remoteIp, remotePort, flows[id].wanIp, flows[id].wanPort, proto) in wan
              && wan[Wan(remoteIp, remotePort, flows[id].wanIp, flows[id].wanPort, proto)] == id
              && flows[id].lanIp == lanIp && flows[id].lanPort == lanPort
    {
      hide PortsHeld, Unshadowed;
      WanInvertsLan(T(), mappings, Lan(remoteIp, remotePort, lanIp, lanPort, proto), WanKey(0, 0, 0, 0, 0));
    }

    // ---- Ports --------------------------------------------------------------------------------

    /** The first static mapping for the direction, if any; only TCP and UDP have mappings. */
    method CheckMapping(toWan: bool, ip: u32, port: u16, proto: byte) returns (r: Option<Mapping>)
      ensures !toWan ==> (r.Some? <==> Mapped(mappings, port, proto))
      ensures r.Some? ==> r.value in mappings && r.value.proto == proto
                          && if toWan then r.value.lanIp == ip && r.value.lanPort == port else r.value.wanPort == port
      ensures r.None? && toWan && (proto == PROTO_TCP || proto == PROTO_UDP) ==>
                forall i :: 0 <= i < |mappings| ==>
                              !(mappings[i].lanIp == ip && mappings[i].lanPort == port && mappings[i].proto == proto)
    {
      r := None;
      if proto != PROTO_TCP && proto != PROTO_UDP { return; }
      for i := 0 to |mappings|
        invariant forall j :: 0 <= j < i && !toWan ==> !(mappings[j].wanPort == port && mappings[j].proto == proto)
        invariant forall j :: 0 <= j < i && toWan ==>
                                !(mappings[j].lanIp == ip && mappings[j].lanPort == port && mappings[j].proto == proto)
      {
        var entry := mappings[i];
        if entry.proto == proto && (if toWan then entry.lanIp == ip && entry.lanPort == port
                                    else entry.wanPort == port) {
          return Some(entry);
        }
      }
    }

    /** A port NatAddFlow may hand out to a flow of this remote. */
    ghost predicate Open(remoteIp: u32, proto: byte, port: u16)
      reads this
    {
      && (remoteIp in ports ==> port !in ports[remoteIp])
      && (proto == PROTO_TCP ==> port !in tcpServices) && (proto == PROTO_UDP ==> port !in udpServices)
      && !Mapped(mappings, port, proto)
    }

    /** The first open port from 32768 on; 0 when there is none. */
    method FindPort(remoteIp: u32, proto: byte) returns (port: u16)
      requires remoteIp in ports
      ensures port == 0 ==> forall p: u16 :: 32768 <= p ==> !Open(remoteIp, proto, p)
      ensures port != 0 ==> 32768 <= port && Open(remoteIp, proto, port) && forall p: u16 :: 32768 <= p < port ==>
                                                                                               !Open(remoteIp, proto, p)
    {
      hide Mapped;
      var last := 32767;
      while last < 65535
        invariant 32767 <= last <= 65535
        invariant forall p: u16 :: 32768 <= p <= last ==> !Open(remoteIp, proto, p)
      {
        last := last + 1;
        port := last;
        var mapping := CheckMapping(false, ipAddr, port, proto);
        if port !in ports[remoteIp] && !(proto == PROTO_TCP && port in tcpServices)
           && !(proto == PROTO_UDP && port in udpServices)
           && mapping.None? {
          return;
        }
      }
      port := 0;
    }

    // ---- Adding a flow ------------------------------------------------------------------------

    ghost predicate Room(remoteIp: u32, proto: byte)
      reads this
    {
      exists p: u16 :: 32768 <= p && Open(remoteIp, proto, p)
    }

    /** Takes a port and enters the flow in both indexes, undoing every step when one fails. */
    method Claim(key: LanKey, now: u32, memory: Memory) returns (r: Option<Flow>)
      requires key !in lan && key.remoteIp in ports && memory.flowAt !in flows
      modifies this`lan, this`wan, this`flows, this`ports
      ensures r.Some? <==> old(Room(key.remoteIp, key.proto)) && memory.portSet && memory.flowAt != 0 && memory.lanSet
                           && memory.wanSet
      ensures r.None? ==> T() == old(T())
      ensures r.Some? ==> LanKeyOf(r.value) == key && r.value.wanIp == ipAddr && r.value.alive == now
                          && T() == Added(old(T()), memory.flowAt, r.value)
      ensures r.Some? ==> old(Open(key.remoteIp, key.proto, r.value.wanPort)) && r.value.wanPort >= 32768
                          && forall p: u16 :: 32768 <= p < r.value.wanPort ==> !old(Open(key.remoteIp, key.proto, p))
    {
      hide Mapped;
      var remote := key.remoteIp;
      var port := FindPort(remote, key.proto);
      assert forall p: u16 :: Open(remote, key.proto, p) == old(Open(remote, key.proto, p));
      if port == 0 { return None; }
      assert Open(remote, key.proto, port);
      if !memory.portSet { return None; }
      ports := ports[remote := ports[remote] + {port}];
      if memory.flowAt == 0 {
        ports := ports[remote := ports[remote] - {port}];
        assert ports == old(ports);
        return None;
      }
      var flow := Flow(remote, key.remotePort, ipAddr, port, key.lanIp, key.lanPort, key.proto, now);
      flows := flows[memory.flowAt := flow];
      if !memory.lanSet {
        ports := ports[remote := ports[remote] - {port}];
        flows := flows - {memory.flowAt};
        assert ports == old(ports) && flows == old(flows);
        return None;
      }
      lan := lan[key := memory.flowAt];
      if !memory.wanSet {
        lan := lan - {key};
        ports := ports[remote := ports[remote] - {port}];
        flows := flows - {memory.flowAt};
        assert ports == old(ports) && flows == old(flows) && lan == old(lan);
        return None;
      }
      wan := wan[WanKeyOf(flow) := memory.flowAt];
      r := Some(flow);
    }

    /**
     * Finds the flow of a LAN key or creates it with the first open port. Creation succeeds exactly when every
     * allocation does and a port is open; otherwise all tables are as before.
     */
    method AddFlow(lanIp: u32, remoteIp: u32, lanPort: u16, remotePort: u16, proto: byte, now: u32, memory: Memory)
      returns (r: Option<Flow>)
      requires Valid() && memory.flowAt !in flows
      modifies this`lan, this`wan, this`flows, this`ports
      ensures Valid()
      ensures var k := Lan(remoteIp, remotePort, lanIp, lanPort, proto);
              if lanPort == 0 || remotePort == 0 then r == None && T() == old(T())
              else if k in old(lan) then T() == Touched(old(T()), old(lan)[k], now) && r == Some(flows[lan[k]])
              else if old(Room(RemoteIp(remoteIp), proto))
                   && (RemoteIp(remoteIp) in old(ports) || (memory.portAlloc && memory.portMap && memory.portAllocSet))
                      && memory.portSet && memory.flowAt != 0 && memory.lanSet && memory.wanSet
              then && r.Some? && T() == Added(old(T()), memory.flowAt, r.value) && LanKeyOf(r.value) == k
                   && r.value.wanIp == ipAddr && r.value.alive == now
                   && old(Open(RemoteIp(remoteIp), proto, r.value.wanPort)) && r.value.wanPort >= 32768
                   && forall p: u16 :: 32768 <= p < r.value.wanPort ==> !old(Open(RemoteIp(remoteIp), proto, p))
              else r == None && T() == old(T())
    {
      hide Mapped, PortsHeld, Unshadowed;
      r := None;
      if lanPort == 0 || remotePort == 0 { return; }
      var remote, key := RemoteIp(remoteIp), Lan(remoteIp, remotePort, lanIp, lanPort, proto);
      if key in lan {
        TouchedAgrees(T(), mappings, lan[key], now);
        flows := flows[lan[key] := flows[lan[key]].(alive := now)];
        return Some(flows[lan[key]]);
      }
      var known := remote in ports;
      ghost var t := T();
      if !known {
        if !memory.portAlloc || !memory.portMap || !memory.portAllocSet { return; }
        ports := ports[remote := {}];
      }
      assert forall p :: Open(remote, proto, p) == old(Open(remote, proto, p));
      r := Claim(key, now, memory);
      if r.Some? {
        AddedAgrees(t, mappings, memory.flowAt, r.value);
        assert T() == Added(t, memory.flowAt, r.value);
      }
      if !known && ports[remote] == {} {
        ports := ports - {remote};
        assert ports == old(ports);
      }
    }

    // ---- Expiry -------------------------------------------------------------------------------

    predicate Expired(f: Flow, now: u32) {
      Wrap32(now - f.alive) > 60
    }

    /** Drops every flow that has been idle for more than a minute, and no other. */
    method Clear(now: u32)
      requires Valid()
      modifies this`lan, this`wan, this`flows, this`ports
      ensures Valid()
      ensures forall id :: id in flows <==> id in old(flows) && !Expired(old(flows)[id], now)
      ensures forall id :: id in flows ==> flows[id] == old(flows)[id]
    {
      hide Agree, Expired;
      AllListed(T(), mappings);
      var todo := lan.Keys;
      while todo != {}
        invariant Valid() && todo <= lan.Keys
        invariant forall id :: id in flows ==> id in old(flows) && flows[id] == old(flows)[id]
        invariant forall id :: id in old(flows) && !Expired(old(flows)[id], now) ==> id in flows
        invariant forall id :: id in flows && LanKeyOf(flows[id]) !in todo ==> !Expired(flows[id], now)
        decreases |todo|
      {
        var key :| key in todo;
        todo := todo - {key};
        Listed(T(), mappings, key);
        var id := lan[key];
        if Expired(flows[id], now) {
          DroppedAgrees(T(), mappings, id);
          Drop(key);
        }
      }
    }

    /** The body of the sweep for one expired flow. */
    method Drop(key: LanKey)
      requires key in lan && lan[key] in flows && LanKeyOf(flows[lan[key]]) == key && flows[lan[key]].remoteIp in ports
      modifies this`lan, this`wan, this`flows, this`ports
      ensures T() == Dropped(old(T()), old(lan)[key])
    {
      var id := lan[key];
      var flow := flows[id];
      lan := lan - {key};
      wan := wan - {WanKeyOf(flow)};
      var remote := flow.remoteIp;
      if remote in ports {
        ports := ports[remote := ports[remote] - {flow.wanPort}];
        if ports[remote] == {} {
          ports := ports - {remote};
          assert ports == old(ports) - {remote};
        }
      }
      flows := flows - {id};
    }
  }

  lemma AllListed(t: Tables, mappings: seq<Mapping>)
    requires Agree(t, mappings)
    ensures forall id :: id in t.flows ==> LanKeyOf(t.flows[id]) in t.lan
  {
    hide PortsHeld, Unshadowed;
  }

  lemma Listed(t: Tables, mappings: seq<Mapping>, key: LanKey)
    requires Agree(t, mappings) && key in t.lan
    ensures t.lan[key] in t.flows && LanKeyOf(t.flows[t.lan[key]]) == key && t.flows[t.lan[key]].remoteIp in t.ports
    ensures forall id :: id in t.flows && LanKeyOf(t.flows[id]) == key ==> id == t.lan[key]
  {
    hide Mapped;
    assert HoldsPort(t, t.lan[key]);
  }
}
