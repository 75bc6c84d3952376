/** The NAT flow tables of a network interface: two indexes of the same flows and the ports they hold. */
module Nat {
  import opened Words

  const PROTO_ICMP: byte := 1
  const PROTO_TCP: byte := 6
  const PROTO_UDP: byte := 17

  datatype LanKey = LanKey(remoteIp: u32, remotePort: u16, lanIp: u32, lanPort: u16, proto: byte)

  datatype WanKey = WanKey(remoteIp: u32, remotePort: u16, wanIp: u32, wanPort: u16, proto: byte)

  datatype Flow = Flow(remoteIp: u32, remotePort: u16, wanIp: u32, wanPort: u16, lanIp: u32, lanPort: u16, proto: byte,
                       alive: u32)

  datatype Mapping = Mapping(wanPort: u16, lanIp: u32, lanPort: u16, proto: byte)

  /** Flows by address; the two indexes hold addresses. */
  datatype Tables = Tables(lan: map<LanKey, nat>, wan: map<WanKey, nat>, flows: map<nat, Flow>, ports: map<u32,
                           set<u16>>)

  function LanKeyOf(f: Flow): LanKey {
    LanKey(f.remoteIp, f.remotePort, f.lanIp, f.lanPort, f.proto)
  }

  function WanKeyOf(f: Flow): WanKey {
    WanKey(f.remoteIp, f.remotePort, f.wanIp, f.wanPort, f.proto)
  }

  // ---- Agreement ------------------------------------------------------------------------------

  /** Each flow is under its own key in both indexes, and the indexes hold nothing else. */
  predicate Indexed(t: Tables) {
    && (forall id :: id in t.flows ==>
          && LanKeyOf(t.flows[id]) in t.lan && t.lan[LanKeyOf(t.flows[id])] == id
          && WanKeyOf(t.flows[id]) in t.wan && t.wan[WanKeyOf(t.flows[id])] == id)
    && (forall k :: k in t.lan ==> t.lan[k] in t.flows && LanKeyOf(t.flows[t.lan[k]]) == k)
    && (forall k :: k in t.wan ==> t.wan[k] in t.flows && WanKeyOf(t.flows[t.wan[k]]) == k)
  }

  predicate HoldsPort(t: Tables, id: nat)
    requires id in t.flows
  {
    t.flows[id].remoteIp in t.ports && t.flows[id].wanPort in t.ports[t.flows[id].remoteIp]
  }

  /** Some flow to remote r has port p. */
  predicate Holder(t: Tables, r: u32, p: u16) {
    exists id :: id in t.flows && t.flows[id].remoteIp == r && t.flows[id].wanPort == p
  }

  predicate SamePort(t: Tables, i: nat, j: nat)
    requires i in t.flows && j in t.flows
  {
    t.flows[i].remoteIp == t.flows[j].remoteIp && t.flows[i].wanPort == t.flows[j].wanPort
  }

  predicate PortsTaken(t: Tables) {
    forall id :: id in t.flows ==> HoldsPort(t, id)
  }

  predicate PortsUsed(t: Tables) {
    && (forall r, p :: r in t.ports && p in t.ports[r] ==> Holder(t, r, p))
    && (forall r :: r in t.ports ==> t.ports[r] != {})
  }

  predicate PortsApart(t: Tables) {
    forall i, j :: i in t.flows && j in t.flows && SamePort(t, i, j) ==> i == j
  }

  /** A remote's port set is exactly the ports of its flows, each held by one flow; no remote has an empty set. */
  predicate PortsHeld(t: Tables) {
    PortsTaken(t) && PortsUsed(t) && PortsApart(t)
  }

  predicate Mapped(mappings: seq<Mapping>, port: u16, proto: byte) {
    && (proto == PROTO_TCP || proto == PROTO_UDP)
    && exists i :: 0 <= i < |mappings| && mappings[i].wanPort == port && mappings[i].proto == proto
  }

  /** No flow's port shadows a static mapping, and all lie in the dynamic range. */
  predicate Unshadowed(t: Tables, mappings: seq<Mapping>) {
    forall id :: id in t.flows ==> t.flows[id].wanPort >= 32768
                                   && !Mapped(mappings, t.flows[id].wanPort, t.flows[id].proto)
  }

  predicate Agree(t: Tables, mappings: seq<Mapping>) {
    Indexed(t) && PortsHeld(t) && Unshadowed(t, mappings)
  }

  /** The two indexes are a one-to-one correspondence: a WAN lookup inverts the LAN lookup, and the other way round. */
  lemma WanInvertsLan(t: Tables, mappings: seq<Mapping>, k: LanKey, w: WanKey)
    requires Agree(t, mappings)
    ensures k in t.lan ==> WanKeyOf(t.flows[t.lan[k]]) in t.wan && t.wan[WanKeyOf(t.flows[t.lan[k]])] == t.lan[k]
    ensures w in t.wan ==> LanKeyOf(t.flows[t.wan[w]]) in t.lan && t.lan[LanKeyOf(t.flows[t.wan[w]])] == t.wan[w]
    ensures k in t.lan && w in t.wan && t.lan[k] == t.wan[w] ==>
              k.remoteIp == w.remoteIp && k.remotePort == w.remotePort && k.proto == w.proto
  {
    hide PortsHeld, Unshadowed;
  }

  // ---- Adding and removing a flow -------------------------------------------------------------

  function Added(t: Tables, id: nat, f: Flow): Tables {
    Tables(t.lan[LanKeyOf(f) := id], t.wan[WanKeyOf(f) := id], t.flows[id := f],
           t.ports[f.remoteIp := (if f.remoteIp in t.ports then t.ports[f.remoteIp] else {}) + {f.wanPort}])
  }

  lemma AddedAgrees(t: Tables, mappings: seq<Mapping>, id: nat, f: Flow)
    requires Agree(t, mappings) && id !in t.flows && LanKeyOf(f) !in t.lan
    requires f.remoteIp in t.ports ==> f.wanPort !in t.ports[f.remoteIp]
    requires f.wanPort >= 32768 && !Mapped(mappings, f.wanPort, f.proto)
    ensures Agree(Added(t, id, f), mappings)
  {
    hide Mapped, Indexed, PortsTaken, PortsUsed, PortsApart;
    WanPortsTaken(t);
    AddedIndexed(t, id, f);
    AddedTaken(t, id, f);
    AddedUsed(t, id, f);
    AddedApart(t, id, f);
  }

  lemma WanPortsTaken(t: Tables)
    requires Indexed(t) && PortsTaken(t)
    ensures forall w :: w in t.wan ==> w.remoteIp in t.ports && w.wanPort in t.ports[w.remoteIp]
  {
    forall w | w in t.wan ensures w.remoteIp in t.ports && w.wanPort in t.ports[w.remoteIp] {
      assert HoldsPort(t, t.wan[w]);
    }
  }

  lemma AddedIndexed(t: Tables, id: nat, f: Flow)
    requires Indexed(t) && id !in t.flows && LanKeyOf(f) !in t.lan && WanKeyOf(f) !in t.wan
    ensures Indexed(Added(t, id, f))
  {
  }

  lemma AddedTaken(t: Tables, id: nat, f: Flow)
    requires PortsTaken(t) && id !in t.flows
    ensures PortsTaken(Added(t, id, f))
  {
    var t' := Added(t, id, f);
    forall j | j in t'.flows ensures HoldsPort(t', j) {
      if j != id { assert HoldsPort(t, j); }
    }
  }

  lemma AddedUsed(t: Tables, id: nat, f: Flow)
    requires PortsUsed(t) && id !in t.flows
    ensures PortsUsed(Added(t, id, f))
  {
    var t' := Added(t, id, f);
    forall r, p | r in t'.ports && p in t'.ports[r] ensures Holder(t', r, p) {
      if r == f.remoteIp && p == f.wanPort {
        assert t'.flows[id] == f;
      } else {
        assert Holder(t, r, p);
        var j :| j in t.flows && t.flows[j].remoteIp == r && t.flows[j].wanPort == p;
        assert t'.flows[j] == t.flows[j];
      }
    }
  }

  lemma AddedApart(t: Tables, id: nat, f: Flow)
    requires PortsApart(t) && PortsTaken(t) && id !in t.flows
    requires f.remoteIp in t.ports ==> f.wanPort !in t.ports[f.remoteIp]
    ensures PortsApart(Added(t, id, f))
  {
    var t' := Added(t, id, f);
    forall i, j | i in t'.flows && j in t'.flows && SamePort(t', i, j) ensures i == j {
      if i != id { assert HoldsPort(t, i); }
      if j != id { assert HoldsPort(t, j); }
      if i != id && j != id { assert SamePort(t, i, j); }
    }
  }

  function Dropped(t: Tables, id: nat): Tables
    requires id in t.flows
  {
    var f := t.flows[id];
    var left := (if f.remoteIp in t.ports then t.ports[f.remoteIp] else {}) - {f.wanPort};
    Tables(t.lan - {LanKeyOf(f)}, t.wan - {WanKeyOf(f)}, t.flows - {id},
           if left == {} then t.ports - {f.remoteIp} else t.ports[f.remoteIp := left])
  }

  lemma DroppedAgrees(t: Tables, mappings: seq<Mapping>, id: nat)
    requires Agree(t, mappings) && id in t.flows
    ensures Agree(Dropped(t, id), mappings)
  {
    hide Mapped, Indexed, PortsTaken, PortsUsed, PortsApart;
    DroppedIndexed(t, id);
    DroppedTaken(t, id);
    DroppedUsed(t, id);
    DroppedApart(t, id);
  }

  lemma DroppedIndexed(t: Tables, id: nat)
    requires Indexed(t) && id in t.flows
    ensures Indexed(Dropped(t, id))
  {
  }

  lemma DroppedTaken(t: Tables, id: nat)
    requires PortsTaken(t) && PortsApart(t) && id in t.flows
    ensures PortsTaken(Dropped(t, id))
  {
    var t' := Dropped(t, id);
    forall j | j in t'.flows ensures HoldsPort(t', j) {
      assert HoldsPort(t, j) && HoldsPort(t, id) && !SamePort(t, j, id);
      if t.flows[j].remoteIp == t.flows[id].remoteIp {
        assert t.flows[j].wanPort in t.ports[t.flows[id].remoteIp] - {t.flows[id].wanPort};
      }
    }
  }

  lemma DroppedUsed(t: Tables, id: nat)
    requires PortsUsed(t) && PortsTaken(t) && id in t.flows
    ensures PortsUsed(Dropped(t, id))
  {
    var t', f := Dropped(t, id), t.flows[id];
    assert HoldsPort(t, id);
    forall r, p | r in t'.ports && p in t'.ports[r] ensures Holder(t', r, p) {
      assert p in t.ports[r];
      assert Holder(t, r, p);
      var j :| j in t.flows && t.flows[j].remoteIp == r && t.flows[j].wanPort == p;
      assert j in t'.flows && t'.flows[j] == t.flows[j];
    }
  }

  lemma DroppedApart(t: Tables, id: nat)
    requires PortsApart(t) && id in t.flows
    ensures PortsApart(Dropped(t, id))
  {
    var t' := Dropped(t, id);
    forall i, j | i in t'.flows && j in t'.flows && SamePort(t', i, j) ensures i == j {
      assert SamePort(t, i, j);
    }
  }

  /** A lookup refreshes the flow it finds, and both indexes see it. */
  function Touched(t: Tables, id: nat, now: u32): Tables
    requires id in t.flows
  {
    t.(flows := t.flows[id := t.flows[id].(alive := now)])
  }

  lemma TouchedAgrees(t: Tables, mappings: seq<Mapping>, id: nat, now: u32)
    requires Agree(t, mappings) && id in t.flows
    ensures Agree(Touched(t, id, now), mappings)
  {
    hide Mapped, Indexed, PortsTaken, PortsUsed, PortsApart;
    TouchedIndexed(t, id, now);
    TouchedPorts(t, id, now);
  }

  lemma TouchedIndexed(t: Tables, id: nat, now: u32)
    requires Indexed(t) && id in t.flows
    ensures Indexed(Touched(t, id, now))
  {
    var t' := Touched(t, id, now);
    forall j | j in t'.flows
      ensures LanKeyOf(t'.flows[j]) == LanKeyOf(t.flows[j]) && WanKeyOf(t'.flows[j]) == WanKeyOf(t.flows[j]) {
    }
  }

  lemma TouchedPorts(t: Tables, id: nat, now: u32)
    requires PortsHeld(t) && id in t.flows
    ensures PortsHeld(Touched(t, id, now))
  {
    var t' := Touched(t, id, now);
    forall j | j in t'.flows ensures HoldsPort(t', j) { assert HoldsPort(t, j); }
    forall r, p | r in t'.ports && p in t'.ports[r] ensures Holder(t', r, p) {
      assert Holder(t, r, p);
      var j :| j in t.flows && t.flows[j].remoteIp == r && t.flows[j].wanPort == p;
      assert t'.flows[j].remoteIp == r && t'.flows[j].wanPort == p;
    }
    forall i, j | i in t'.flows && j in t'.flows && SamePort(t', i, j) ensures i == j { assert SamePort(t, i, j); }
  }
}
