/** The TCP stack as an object: dialling, listening, accepting and closing, with the books kept in place. */
module TcpStack {
  import opened Words
  import opened Options
  import opened Sequences
  import opened StackBooks

  /** An address that can name one host. */
  predicate Unicast(ip: u32) {
    var first := ip / 0x100_0000;
    first != 0 && first < 224 && ip != 0xffff_ffff
  }

  const FIRST_PORT: u16 := 49152
  const PORTS: nat := 16384

  /** The ports tried in n steps round the dynamic range from start. */
  predicate Tried(start: nat, n: nat, p: nat) {
    start <= p < start + n || p < start + n - PORTS
  }

  datatype Arrival = Invalid | Shut | Existing(id: nat) | Ignored | Refused | Created

  datatype Waiting = ListenerClosed | NoneYet | Handed(id: nat)

  /** What Input refuses before it looks anything up. */
  predicate Proper(key: Key) {
    Unicast(key.remote.ip) && Unicast(key.local.ip) && key.remote.port != 0 && key.local.port != 0
  }

  class Stack {
    var conns: map<Key, nat>
    var objs: map<nat, Conn>
    var listeners: map<Addr, nat>
    var lis: map<nat, Listener>
    var ports: map<Addr, nat>
    var nextPort: u16
    var closed: bool

    ghost function B(): Books
      reads this
    {
      Books(conns, objs, listeners, lis, ports)
    }

    ghost predicate Valid()
      reads this
    {
      && Balanced(B(), 0) && nextPort >= FIRST_PORT
      && (forall id :: id in objs ==> objs[id].listener == 0 || objs[id].listener in lis)
      && (closed ==> conns == map[] && listeners == map[] && ports == map[])
    }

    constructor (first: u16)
      requires first >= FIRST_PORT
      ensures Valid() && conns == map[] && listeners == map[] && !closed
    {
      conns, objs, listeners, lis, ports := map[], map[], map[], map[], map[];
      nextPort, closed := first, false;
    }

    // ---- Ports --------------------------------------------------------------------------------

    method Reserve(a: Addr) returns (ok: bool)
      modifies this`ports
      ensures ok <==> Count(old(ports), a) == 0
      ensures ports == if ok then Charged(old(ports), a) else old(ports)
    {
      if a in ports && ports[a] != 0 { return false; }
      ports := ports[a := 1];
      ok := true;
    }

    method Release(a: Addr)
      requires a in ports && ports[a] > 0
      modifies this`ports
      ensures ports == Released(old(ports), a)
    {
      ports := ports[a := ports[a] - 1];
      if ports[a] == 0 {
        ports := ports - {a};
        assert ports == old(ports) - {a};
      }
    }

    /** Reserves the first free dynamic port from nextPort round; 0 exactly when all of them are in use. */
    method PickPort(ip: u32) returns (port: u16)
      requires nextPort >= FIRST_PORT
      modifies this`ports, this`nextPort
      ensures nextPort >= FIRST_PORT
      ensures port == 0 ==> ports == old(ports) && forall p: u16 :: p >= FIRST_PORT ==> Count(ports, Addr(ip, p)) != 0
      ensures port != 0 ==> port >= FIRST_PORT && Count(old(ports), Addr(ip, port)) == 0
                            && ports == Charged(old(ports), Addr(ip, port))
    {
      var start := nextPort;
      var n := 0;
      while n < PORTS
        invariant 0 <= n <= PORTS && ports == old(ports)
        invariant nextPort == if start + n < 65536 then start + n else start + n - PORTS
        invariant forall p: u16 :: p >= FIRST_PORT && Tried(start, n, p) ==> Count(ports, Addr(ip, p)) != 0
      {
        var candidate := nextPort;
        nextPort := if nextPort == 65535 then FIRST_PORT else nextPort + 1;
        var ok := Reserve(Addr(ip, candidate));
        if ok { return candidate; }
        n := n + 1;
      }
      port := 0;
    }

    // ---- Opening ------------------------------------------------------------------------------

    /** Opens a connection from a local address that nothing else uses; id is the new object. */
    method Dial(remote: Addr, local: Addr, id: nat) returns (ok: bool)
      requires Valid() && id !in objs
      modifies this
      ensures Valid() && closed == old(closed) && listeners == old(listeners) && lis == old(lis)
      ensures ok ==> id in objs && objs[id].phase == SynSent && objs[id].key.remote == remote
                     && objs[id].key.local.ip == local.ip
                     && Count(old(ports), objs[id].key.local) == 0 && B() == Opened(old(B()), id, objs[id])
      ensures !ok ==> B() == old(B())
      ensures ok <==> Unicast(remote.ip) && remote.port != 0 && Unicast(local.ip) && !closed
                      && |old(conns)| < MAX_CONNECTIONS
                      && (if local.port != 0 then Count(old(ports), local) == 0
                          else exists p: u16 :: p >= FIRST_PORT && Count(old(ports), Addr(local.ip, p)) == 0)
    {
      hide Balanced;
      ok := false;
      if !Unicast(remote.ip) || remote.port == 0 { return; }
      if !Unicast(local.ip) { return; }
      if closed { return; }
      if |conns| >= MAX_CONNECTIONS { return; }
      var from := local;
      ghost var b := B();
      if local.port != 0 {
        var free := Reserve(local);
        if !free { return; }
      } else {
        var port := PickPort(local.ip);
        if port == 0 { return; }
        from := Addr(local.ip, port);
      }
      NoKey(b, from, remote);
      OpenedBalanced(b, id, Conn(Key(from, remote), SynSent, 0));
      conns := conns[Key(from, remote) := id];
      objs := objs[id := Conn(Key(from, remote), SynSent, 0)];
      ok := true;
      NoListenerZero(b);
    }

    method Listen(local: Addr, l: nat) returns (at: Option<Addr>)
      requires Valid() && l !in lis && l != 0
      modifies this
      ensures Valid() && closed == old(closed) && conns == old(conns) && objs == old(objs)
      ensures at.None? ==> B() == old(B())
      ensures at.Some? ==> at.value.ip == local.ip && at.value.port != 0 && (local.port != 0 ==> at.value == local)
                           && Count(old(ports), at.value) == 0 && B() == Listening(old(B()), l, at.value)
      ensures at.Some? <==> Unicast(local.ip) && !closed && |old(listeners)| < MAX_CONNECTIONS
                            && (if local.port != 0 then Count(old(ports), local) == 0
                                else exists p: u16 :: p >= FIRST_PORT && Count(old(ports), Addr(local.ip, p)) == 0)
    {
      hide Balanced;
      at := None;
      if !Unicast(local.ip) { return; }
      if closed { return; }
      if |listeners| >= MAX_CONNECTIONS { return; }
      var from := local;
      ghost var b := B();
      if local.port == 0 {
        var port := PickPort(local.ip);
        if port == 0 { return; }
        from := Addr(local.ip, port);
      } else {
        var free := Reserve(local);
        if !free { return; }
      }
      ListeningBalanced(b, l, from);
      lis := lis[l := Listener(from, 0, [], false)];
      listeners := listeners[from := l];
      at := Some(from);
    }

    /** A segment for key: the connection that has it, or what a new one makes of it. */
    method Arrive(key: Key, rst: bool, ack: bool, syn: bool, fin: bool, id: nat) returns (r: Arrival)
      requires Valid() && id !in objs
      modifies this`conns, this`objs, this`lis, this`ports
      ensures Valid()
      ensures r != Created ==> B() == old(B())
      ensures r == Invalid <==> !Proper(key)
      ensures r == Shut <==> Proper(key) && closed
      ensures r.Existing? <==> Proper(key) && !closed && key in old(conns)
      ensures r.Existing? ==> r.id == old(conns)[key]
      ensures r == Refused <==> Proper(key) && !closed && key !in old(conns) && !rst
                                && (key.local !in old(listeners) || ack)
      ensures key.local in old(listeners) ==> old(listeners)[key.local] in old(lis)
      ensures r == Created <==>
              && Proper(key) && !closed && key !in old(conns) && !rst && !ack && syn && !fin
                 && key.local in old(listeners)
              && |old(conns)| < MAX_CONNECTIONS
              && var l := old(lis)[old(listeners)[key.local]]; l.incomplete + |l.pending| < LISTEN_BACKLOG
      ensures r == Created ==> B() == Opened(old(B()), id, Conn(key, SynReceived, old(listeners)[key.local]))
    {
      hide Balanced;
      if key.local in listeners { ListenerAt(B(), key.local); }
      if !Proper(key) { return Invalid; }
      if closed { return Shut; }
      r := Ignored;
      if key in conns { return Existing(conns[key]); }
      if rst { return; }
      if key.local !in listeners || ack { return Refused; }
      var l := listeners[key.local];
      if !(syn && !fin) { return; }
      if |conns| >= MAX_CONNECTIONS || lis[l].incomplete + |lis[l].pending| >= LISTEN_BACKLOG { return; }
      OpenedBalanced(B(), id, Conn(key, SynReceived, l));
      ports := ports[key.local := (if key.local in ports then ports[key.local] else 0) + 1];
      conns := conns[key := id];
      objs := objs[id := Conn(key, SynReceived, l)];
      lis := lis[l := lis[l].(incomplete := lis[l].incomplete + 1)];
      r := Created;
    }

    /** The handshake completes: a half-open connection joins its listener's queue, a dialled one just opens. */
    method Establish(id: nat)
      requires Valid() && id in objs && (objs[id].phase == SynReceived || objs[id].phase == SynSent)
      modifies this`objs, this`lis
      ensures Valid() && B() == Established(old(B()), id)
    {
      hide Balanced;
      EstablishedBalanced(B(), id);
      AttachedTo(B(), id, 0);
      var l := objs[id].listener;
      var received := objs[id].phase == SynReceived;
      objs := objs[id := objs[id].(phase := Open)];
      if received {
        lis := lis[l := lis[l].(incomplete := if lis[l].incomplete > 0 then lis[l].incomplete - 1 else 0,
                                pending := lis[l].pending + [id])];
      }
    }

    /** The connection that has waited longest, if any waits. Nothing that waits is closed, so none is skipped. */
    method Accept(l: nat) returns (r: Waiting)
      requires Valid() && l in lis
      modifies this`objs, this`lis
      ensures Valid()
      ensures r == ListenerClosed <==> old(lis)[l].closed
      ensures r == NoneYet <==> !old(lis)[l].closed && old(lis)[l].pending == []
      ensures !r.Handed? ==> B() == old(B())
      ensures r.Handed? ==> r.id == old(lis)[l].pending[0] && r.id in old(objs) && old(objs)[r.id].phase == Open
                            && B() == Accepted(old(B()), l)
    {
      hide Balanced;
      if lis[l].closed { return ListenerClosed; }
      if |lis[l].pending| == 0 { return NoneYet; }
      PendingOpen(B(), l, 0);
      AcceptedBalanced(B(), l);
      var c := lis[l].pending[0];
      lis := lis[l := lis[l].(pending := lis[l].pending[1..])];
      objs := objs[c := objs[c].(listener := 0)];
      r := Handed(c);
    }

    // ---- Closing ------------------------------------------------------------------------------

    /** Closes a connection once: out of conns, out of its listener's books, its address released. */
    method Fail(id: nat, ghost closing: nat)
      requires id in objs && Balanced(B(), closing)
      modifies this`conns, this`objs, this`lis, this`ports
      ensures Balanced(B(), closing)
      ensures if old(objs)[id].phase == Closed then B() == old(B())
              else old(objs)[id].key.local in old(ports) && old(ports)[old(objs)[id].key.local] > 0
                   && B() == Failed(old(B()), id)
      ensures objs == old(objs)[id := old(objs)[id].(phase := Closed)]
              && (old(objs)[id].phase != Closed ==> conns == old(conns) - {old(objs)[id].key})
      ensures lis.Keys == old(lis).Keys && forall l :: l in lis ==>
                                                         lis[l].closed == old(lis)[l].closed
                                                         && lis[l].local == old(lis)[l].local
    {
      hide Balanced, Without, Released;
      if objs[id].phase == Closed { return; }
      FailedBalanced(B(), id, closing);
      AttachedTo(B(), id, closing);
      var c := objs[id];
      if c.listener != 0 && c.phase == SynReceived {
        lis := lis[c.listener := lis[c.listener].(incomplete := if lis[c.listener].incomplete > 0
                                                                then lis[c.listener].incomplete - 1 else 0)];
      }
      if c.listener != 0 && c.phase != SynReceived {
        var pending := Removed(lis[c.listener].pending, id);
        lis := lis[c.listener := lis[c.listener].(pending := pending)];
      }
      objs := objs[id := c.(phase := Closed)];
      conns := conns - {c.key};
      Release(c.key.local);
    }

    /** Closes a listener and every connection it has not handed out; the others stay as they are. */
    method CloseListener(l: nat) returns (ok: bool)
      requires Valid() && l in lis
      modifies this
      ensures Valid() && closed == old(closed) && objs.Keys == old(objs).Keys
      ensures ok <==> !old(lis)[l].closed
      ensures !ok ==> B() == old(B())
      ensures ok ==> l in lis && lis[l].closed && lis[l].pending == []
                     && listeners == old(listeners) - {old(lis)[l].local}
      ensures ok ==> forall id :: id in objs ==>
                                    objs[id] == if old(objs)[id].listener == l then old(objs)[id].(phase := Closed)
                                                else old(objs)[id]
    {
      hide Balanced, Failed;
      if lis[l].closed { return false; }
      ClosingBalanced(B(), l);
      Locality(B(), l);
      lis := lis[l := lis[l].(closed := true)];
      listeners := listeners - {lis[l].local};
      FailAll(l);
      NoneLeft(B(), l);
      GoneBalanced(B(), l);
      lis := lis[l := lis[l].(pending := [])];
      Release(lis[l].local);
      ok := true;
    }

    /** Fails every connection of one listener. */
    method FailAll(l: nat)
      requires Balanced(B(), l) && l in lis && l != 0
      requires forall id :: id in objs ==> objs[id].listener == 0 || objs[id].listener in lis
      modifies this`conns, this`objs, this`lis, this`ports
      ensures Balanced(B(), l) && objs.Keys == old(objs).Keys && lis.Keys == old(lis).Keys
      ensures lis[l].closed == old(lis)[l].closed && lis[l].local == old(lis)[l].local
      ensures forall id :: id in objs ==>
                             objs[id] == if old(objs)[id].listener == l then old(objs)[id].(phase := Closed)
                                         else old(objs)[id]
    {
      hide Balanced, Failed, Spared, Remaining;
      var todo := conns.Keys;
      StartSweep(B(), l);
      while todo != {}
        invariant Balanced(B(), l) && lis.Keys == old(lis).Keys
        invariant lis[l].closed == old(lis)[l].closed && lis[l].local == old(lis)[l].local
        invariant Spared(old(objs), objs, l) && Remaining(objs, l, todo)
        decreases |todo|
      {
        var k :| k in todo;
        SweepKey(B(), old(objs), l, todo, k);
        todo := todo - {k};
        if k in conns && objs[conns[k]].listener == l {
          Fail(conns[k], l);
        }
      }
      SweptAll(old(objs), objs, l);
    }

    /** Closes everything. */
    method Close()
      requires Valid()
      modifies this
      ensures Valid() && closed && conns == map[] && listeners == map[] && ports == map[]
    {
      hide Balanced, Failed;
      if closed { return; }
      var keys := conns.Keys;
      while keys != {}
        invariant Balanced(B(), 0) && nextPort >= FIRST_PORT && conns.Keys <= keys
        invariant forall id :: id in objs ==> objs[id].listener == 0 || objs[id].listener in lis
        decreases |keys|
      {
        var k :| k in keys;
        keys := keys - {k};
        AllKeyed(B(), 0);
        if k in conns {
          Fail(conns[k], 0);
        }
      }
      CloseListeners();
      NothingDue(B());
      closed := true;
    }

    method CloseListeners()
      requires Balanced(B(), 0) && conns == map[]
      requires forall id :: id in objs ==> objs[id].listener == 0 || objs[id].listener in lis
      modifies this`listeners, this`lis, this`ports
      ensures Balanced(B(), 0) && listeners == map[]
      ensures forall id :: id in objs ==> objs[id].listener == 0 || objs[id].listener in lis
    {
      hide Balanced;
      var todo := listeners.Keys;
      while todo != {}
        invariant Balanced(B(), 0) && conns == map[] && listeners.Keys == todo
        invariant forall id :: id in objs ==> objs[id].listener == 0 || objs[id].listener in lis
        decreases |todo|
      {
        var a :| a in todo;
        todo := todo - {a};
        ListenerAt(B(), a);
        var l := listeners[a];
        ClosingBalanced(B(), l);
        lis := lis[l := lis[l].(closed := true)];
        listeners := listeners - {a};
        AllKeyed(B(), l);
        GoneBalanced(B(), l);
        lis := lis[l := lis[l].(pending := [])];
        Release(a);
      }
    }
  }

  /** The loop that takes a connection out of the queue. */
  method Removed(s: seq<nat>, a: nat) returns (r: seq<nat>)
    ensures r == Without(s, a)
  {
    hide Without;
    WithoutShorter(s, a);
    for i := 0 to |s|
      invariant a !in s[..i]
    {
      if s[i] == a {
        FirstAt(s, a, i);
        return s[..i] + s[i + 1..];
      }
    }
    r := s;
  }

  lemma {:induction false} FirstAt(s: seq<nat>, a: nat, i: nat)
    requires i < |s| && s[i] == a && a !in s[..i]
    ensures Without(s, a) == s[..i] + s[i + 1..]
  {
    if i > 0 {
      assert s[0] in s[..i];
      assert forall x :: x in s[1..][..i - 1] ==> x in s[..i];
      FirstAt(s[1..], a, i - 1);
    }
  }

  lemma NoKey(b: Books, local: Addr, remote: Addr)
    requires Balanced(b, 0) && Count(b.ports, local) == 0
    ensures Key(local, remote) !in b.conns
  {
    hide ConnsOk, ListenersOk, BacklogsOk;
    assert Count(b.ports, local) == Due(b, local, 0);
    if Key(local, remote) in b.conns { LocalsHas(b.conns, Key(local, remote)); }
  }

  lemma LocalsHas(conns: map<Key, nat>, k: Key)
    requires k in conns
    ensures |Locals(conns, k.local)| > 0
  {
    assert k in Locals(conns, k.local);
  }

  lemma AttachedTo(b: Books, id: nat, closing: nat)
    requires Balanced(b, closing) && id in b.objs && b.objs[id].phase != Closed
    ensures Attached(b, b.objs[id], closing) && 0 !in b.lis
  {
    hide ConnsOk, PortsOk;
  }

  lemma NoListenerZero(b: Books)
    requires Balanced(b, 0)
    ensures 0 !in b.lis
  {
    hide ConnsOk, PortsOk, BacklogsOk;
  }

  lemma Locality(b: Books, l: nat)
    requires Balanced(b, 0) && l in b.lis
    ensures l != 0 && (!b.lis[l].closed ==> b.lis[l].local in b.listeners)
  {
    hide ConnsOk, PortsOk, BacklogsOk;
  }

  /** Every live connection is in conns under its key. */
  lemma AllKeyed(b: Books, closing: nat)
    requires Balanced(b, closing)
    ensures forall id :: id in b.objs && b.objs[id].phase != Closed ==>
                           b.objs[id].key in b.conns && b.conns[b.objs[id].key] == id
    ensures forall k :: k in b.conns ==>
                          b.conns[k] in b.objs && b.objs[b.conns[k]].key == k && b.objs[b.conns[k]].phase != Closed
  {
    hide ListenersOk, PortsOk, BacklogsOk;
  }

  lemma NoneLeft(b: Books, l: nat)
    requires forall id :: id in b.objs && b.objs[id].listener == l ==> b.objs[id].phase == Closed
    ensures forall id :: id in b.objs && b.objs[id].phase != Closed ==> b.objs[id].listener != l
  {
  }

  lemma ListenerAt(b: Books, a: Addr)
    requires Balanced(b, 0) && a in b.listeners
    ensures b.listeners[a] in b.lis && b.lis[b.listeners[a]].local == a && !b.lis[b.listeners[a]].closed
  {
    hide ConnsOk, PortsOk, BacklogsOk;
  }

  /** With no connection and no listener, no address is charged. */
  lemma NothingDue(b: Books)
    requires Balanced(b, 0) && b.conns == map[] && b.listeners == map[]
    ensures b.ports == map[]
  {
    hide BacklogsOk;
    forall a ensures a !in b.ports {
      assert Count(b.ports, a) == Due(b, a, 0);
      assert Locals(b.conns, a) == {};
    }
  }

  // ---- Failing a listener's connections -------------------------------------------------------

  /** Only connections of l have changed, and only to closed. */
  ghost predicate Spared(before: map<nat, Conn>, after: map<nat, Conn>, l: nat) {
    && after.Keys == before.Keys
    && forall id :: id in after ==> after[id] == before[id]
                                    || (before[id].listener == l && after[id] == before[id].(phase := Closed))
  }

  /** The keys of l's live connections are still to be done. */
  ghost predicate Remaining(objs: map<nat, Conn>, l: nat, todo: set<Key>) {
    forall id :: id in objs && objs[id].listener == l && objs[id].phase != Closed ==> objs[id].key in todo
  }

  lemma StartSweep(b: Books, l: nat)
    requires Balanced(b, l)
    ensures Spared(b.objs, b.objs, l) && Remaining(b.objs, l, b.conns.Keys)
  {
    AllKeyed(b, l);
  }

  lemma SweepKey(b: Books, before: map<nat, Conn>, l: nat, todo: set<Key>, k: Key)
    requires Balanced(b, l) && Spared(before, b.objs, l) && Remaining(b.objs, l, todo) && k in todo
    ensures k in b.conns ==> b.conns[k] in b.objs
    ensures k in b.conns && b.objs[b.conns[k]].listener == l ==>
              var objs' := b.objs[b.conns[k] := b.objs[b.conns[k]].(phase := Closed)];
              Spared(before, objs', l) && Remaining(objs', l, todo - {k})
    ensures !(k in b.conns && b.objs[b.conns[k]].listener == l) ==> Remaining(b.objs, l, todo - {k})
  {
    hide Balanced;
    AllKeyed(b, l);
  }

  lemma SweptAll(before: map<nat, Conn>, after: map<nat, Conn>, l: nat)
    requires Spared(before, after, l) && Remaining(after, l, {})
    ensures after.Keys == before.Keys
    ensures forall id :: id in after ==>
                           after[id] == if before[id].listener == l then before[id].(phase := Closed) else before[id]
  {
  }
}
