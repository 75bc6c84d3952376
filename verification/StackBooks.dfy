/** The TCP stack's books: connections, listeners, port counts and backlogs, and what each step does to them. */
module StackBooks {
  import opened Words
  import opened Sequences

  const MAX_CONNECTIONS: nat := 1024
  const LISTEN_BACKLOG: nat := 128

  datatype Addr = Addr(ip: u32, port: u16)

  datatype Key = Key(local: Addr, remote: Addr)

  /** Open stands for every state from ESTABLISHED to TIME_WAIT. */
  datatype Phase = SynSent | SynReceived | Open | Closed

  /** listener is 0 for a connection that was dialled or has been accepted. */
  datatype Conn = Conn(key: Key, phase: Phase, listener: nat)

  datatype Listener = Listener(local: Addr, incomplete: nat, pending: seq<nat>, closed: bool)

  datatype Books = Books(conns: map<Key, nat>, objs: map<nat, Conn>, listeners: map<Addr, nat>, lis: map<nat, Listener>,
                         ports: map<Addr, nat>)

  // ---- The invariant --------------------------------------------------------------------------

  /** conns holds exactly the connections that are not closed, each under its own key. */
  predicate ConnsOk(s: Books) {
    && (forall k :: k in s.conns ==> s.conns[k] in s.objs && s.objs[s.conns[k]].key == k
                                     && s.objs[s.conns[k]].phase != Closed)
    && (forall id :: id in s.objs && s.objs[id].phase != Closed ==>
                       s.objs[id].key in s.conns && s.conns[s.objs[id].key] == id)
  }

  /** listeners holds exactly the listeners that are not closed. */
  predicate ListenersOk(s: Books) {
    && 0 !in s.lis
    && (forall a :: a in s.listeners ==>
                      s.listeners[a] in s.lis && s.lis[s.listeners[a]].local == a && !s.lis[s.listeners[a]].closed)
    && (forall l :: l in s.lis && !s.lis[l].closed ==>
                      s.lis[l].local in s.listeners && s.listeners[s.lis[l].local] == l)
  }

  function Locals(conns: map<Key, nat>, a: Addr): set<Key> {
    set k | k in conns && k.local == a
  }

  /** What should be counted against an address: its connections and its listener, closing still counted. */
  function Due(s: Books, a: Addr, closing: nat): nat {
    |Locals(s.conns, a)| + (if a in s.listeners then 1 else 0)
    + (if closing in s.lis && s.lis[closing].local == a then 1 else 0)
  }

  function Count(ports: map<Addr, nat>, a: Addr): nat {
    if a in ports then ports[a] else 0
  }

  ghost predicate PortsOk(s: Books, closing: nat) {
    && (forall a :: Count(s.ports, a) == Due(s, a, closing))
    && (forall a :: a in s.ports ==> s.ports[a] > 0)
  }

  predicate Active(s: Books, l: nat, closing: nat) {
    l in s.lis && (!s.lis[l].closed || l == closing)
  }

  function Half(objs: map<nat, Conn>, l: nat): set<nat> {
    set id | id in objs && objs[id].listener == l && objs[id].phase == SynReceived
  }

  predicate Waits(objs: map<nat, Conn>, id: nat, l: nat) {
    id in objs && objs[id].listener == l && objs[id].phase == Open
  }

  /** incomplete counts a listener's half-open connections, and pending lists its unaccepted ones, each once. */
  ghost predicate BacklogOk(objs: map<nat, Conn>, l: nat, lis: Listener) {
    && lis.incomplete == |Half(objs, l)|
    && Distinct(lis.pending) && (forall id :: id in lis.pending <==> Waits(objs, id, l))
    && lis.incomplete + |lis.pending| <= LISTEN_BACKLOG
  }

  ghost predicate BacklogsOk(s: Books, closing: nat) {
    && (forall l :: Active(s, l, closing) ==> BacklogOk(s.objs, l, s.lis[l]))
    && (forall id :: id in s.objs && s.objs[id].phase != Closed ==> Attached(s, s.objs[id], closing))
  }

  /** A live connection's listener is open and has its address; a half-open one has a listener. */
  predicate Attached(s: Books, c: Conn, closing: nat) {
    && (c.listener != 0 ==> Active(s, c.listener, closing) && s.lis[c.listener].local == c.key.local)
    && (c.phase == SynReceived ==> c.listener != 0) && (c.phase == SynSent ==> c.listener == 0)
  }

  /** The books balance; closing is a listener being closed, or 0. */
  ghost predicate Balanced(s: Books, closing: nat) {
    ConnsOk(s) && ListenersOk(s) && PortsOk(s, closing) && BacklogsOk(s, closing) && |s.conns| <= MAX_CONNECTIONS
  }

  // ---- Port counts ----------------------------------------------------------------------------

  function Charged(ports: map<Addr, nat>, a: Addr): map<Addr, nat> {
    ports[a := Count(ports, a) + 1]
  }

  function Released(ports: map<Addr, nat>, a: Addr): map<Addr, nat>
    requires a in ports && ports[a] > 0
  {
    if ports[a] == 1 then ports - {a} else ports[a := ports[a] - 1]
  }

  lemma LocalsAdd(conns: map<Key, nat>, k: Key, id: nat, a: Addr)
    requires k !in conns
    ensures |Locals(conns[k := id], a)| == |Locals(conns, a)| + if k.local == a then 1 else 0
  {
    assert Locals(conns[k := id], a) == Locals(conns, a) + if k.local == a then {k} else {};
  }

  lemma LocalsRemove(conns: map<Key, nat>, k: Key, a: Addr)
    requires k in conns
    ensures |Locals(conns - {k}, a)| == |Locals(conns, a)| - if k.local == a then 1 else 0
  {
    assert Locals(conns - {k}, a) == Locals(conns, a) - {k};
    assert k.local == a ==> k in Locals(conns, a);
  }

  // ---- A connection opened --------------------------------------------------------------------

  /** A new connection under a key not in use, its address charged. */
  function Opened(s: Books, id: nat, c: Conn): Books {
    s.(conns := s.conns[c.key := id], objs := s.objs[id := c], ports := Charged(s.ports, c.key.local),
       lis := if c.listener in s.lis
              then s.lis[c.listener := s.lis[c.listener].(incomplete := s.lis[c.listener].incomplete + 1)]
              else s.lis)
  }

  lemma HalfAdd(objs: map<nat, Conn>, id: nat, c: Conn, l: nat)
    requires id !in objs
    ensures |Half(objs[id := c], l)| == |Half(objs, l)| + if c.listener == l && c.phase == SynReceived then 1 else 0
  {
    assert Half(objs[id := c], l) == Half(objs, l) + if c.listener == l && c.phase == SynReceived then {id} else {};
  }

  lemma OpenedBalanced(s: Books, id: nat, c: Conn)
    requires Balanced(s, 0) && id !in s.objs && c.key !in s.conns && |s.conns| < MAX_CONNECTIONS
    requires (c.phase == SynSent && c.listener == 0)
          || (c.phase == SynReceived && c.listener in s.lis && !s.lis[c.listener].closed
              && s.lis[c.listener].local == c.key.local
              && s.lis[c.listener].incomplete + |s.lis[c.listener].pending| < LISTEN_BACKLOG)
    ensures Balanced(Opened(s, id, c), 0)
  {
    OpenedConns(s, id, c);
    OpenedPorts(s, id, c);
    OpenedBacklogs(s, id, c);
  }

  lemma OpenedConns(s: Books, id: nat, c: Conn)
    requires ConnsOk(s) && ListenersOk(s) && id !in s.objs && c.key !in s.conns && c.phase != Closed
    ensures ConnsOk(Opened(s, id, c)) && ListenersOk(Opened(s, id, c))
  {
  }

  lemma OpenedPorts(s: Books, id: nat, c: Conn)
    requires PortsOk(s, 0) && 0 !in s.lis && c.key !in s.conns
    ensures PortsOk(Opened(s, id, c), 0)
  {
    var s' := Opened(s, id, c);
    forall a ensures Count(s'.ports, a) == Due(s', a, 0) {
      assert Count(s.ports, a) == Due(s, a, 0);
      LocalsAdd(s.conns, c.key, id, a);
    }
  }

  lemma OpenedBacklogs(s: Books, id: nat, c: Conn)
    requires BacklogsOk(s, 0) && 0 !in s.lis && id !in s.objs
    requires (c.phase == SynSent && c.listener == 0)
          || (c.phase == SynReceived && c.listener in s.lis && !s.lis[c.listener].closed
              && s.lis[c.listener].local == c.key.local
              && s.lis[c.listener].incomplete + |s.lis[c.listener].pending| < LISTEN_BACKLOG)
    ensures BacklogsOk(Opened(s, id, c), 0)
  {
    hide Half;
    var s' := Opened(s, id, c);
    forall l | Active(s', l, 0) ensures BacklogOk(s'.objs, l, s'.lis[l]) {
      assert Active(s, l, 0);
      HalfAdd(s.objs, id, c, l);
      assert forall x :: Waits(s'.objs, x, l) <==> Waits(s.objs, x, l);
    }
    forall x | x in s'.objs && s'.objs[x].phase != Closed ensures Attached(s', s'.objs[x], 0) {
      if x != id { assert Attached(s, s.objs[x], 0); }
    }
  }

  // ---- A connection closed --------------------------------------------------------------------

  /** fail: the connection leaves conns, its listener's books and its address's count. */
  function Failed(s: Books, id: nat): Books
    requires id in s.objs && s.objs[id].phase != Closed && s.objs[id].key.local in s.ports
             && s.ports[s.objs[id].key.local] > 0
  {
    var c := s.objs[id];
    s.(conns := s.conns - {c.key}, objs := s.objs[id := c.(phase := Closed)], ports := Released(s.ports, c.key.local),
       lis := if c.listener in s.lis then s.lis[c.listener := Left(s.lis[c.listener], id, c.phase)] else s.lis)
  }

  function Left(l: Listener, id: nat, phase: Phase): Listener {
    if phase == SynReceived then l.(incomplete := if l.incomplete > 0 then l.incomplete - 1 else 0)
    else l.(pending := Without(l.pending, id))
  }

  lemma HalfChange(objs: map<nat, Conn>, id: nat, c: Conn, l: nat)
    requires id in objs && c.listener == objs[id].listener && c.phase != SynReceived
    ensures var was := objs[id].listener == l && objs[id].phase == SynReceived;
            |Half(objs[id := c], l)| == |Half(objs, l)| - (if was then 1 else 0) && (was ==> |Half(objs, l)| > 0)
  {
    assert Half(objs[id := c], l) == Half(objs, l) - {id};
    assert objs[id].listener == l && objs[id].phase == SynReceived ==> id in Half(objs, l);
  }

  lemma FailedBalanced(s: Books, id: nat, closing: nat)
    requires Balanced(s, closing) && id in s.objs && s.objs[id].phase != Closed
    ensures s.objs[id].key.local in s.ports && s.ports[s.objs[id].key.local] > 0
    ensures Balanced(Failed(s, id), closing)
  {
    hide PortsOk, BacklogsOk;
    ChargedLocal(s, s.objs[id].key, closing);
    FailedConns(s, id);
    FailedPorts(s, id, closing);
    FailedBacklogs(s, id, closing);
    assert |Failed(s, id).conns| <= |s.conns| by {
      assert (s.conns - {s.objs[id].key}).Keys == s.conns.Keys - {s.objs[id].key};
      assert |(s.conns - {s.objs[id].key}).Keys| == |s.conns.Keys| - 1;
    }
  }

  lemma ChargedLocal(s: Books, k: Key, closing: nat)
    requires PortsOk(s, closing) && k in s.conns
    ensures k.local in s.ports && s.ports[k.local] > 0
  {
    assert k in Locals(s.conns, k.local);
    assert Count(s.ports, k.local) == Due(s, k.local, closing);
  }

  lemma FailedConns(s: Books, id: nat)
    requires ConnsOk(s) && ListenersOk(s) && id in s.objs && s.objs[id].phase != Closed
    requires s.objs[id].key.local in s.ports && s.ports[s.objs[id].key.local] > 0
    ensures ConnsOk(Failed(s, id)) && ListenersOk(Failed(s, id))
  {
    hide Released;
  }

  lemma FailedPorts(s: Books, id: nat, closing: nat)
    requires PortsOk(s, closing) && id in s.objs && s.objs[id].key in s.conns && s.objs[id].phase != Closed
    requires s.objs[id].key.local in s.ports && s.ports[s.objs[id].key.local] > 0
    ensures PortsOk(Failed(s, id), closing)
  {
    hide Locals;
    var s' := Failed(s, id);
    forall a ensures Count(s'.ports, a) == Due(s', a, closing) {
      assert Count(s.ports, a) == Due(s, a, closing);
      LocalsRemove(s.conns, s.objs[id].key, a);
    }
  }

  lemma FailedBacklogs(s: Books, id: nat, closing: nat)
    requires BacklogsOk(s, closing) && 0 !in s.lis && id in s.objs && s.objs[id].phase != Closed
    requires s.objs[id].key.local in s.ports && s.ports[s.objs[id].key.local] > 0
    ensures BacklogsOk(Failed(s, id), closing)
  {
    hide Half, Without, Released, Distinct;
    var s', c := Failed(s, id), s.objs[id];
    assert Attached(s, c, closing);
    forall l | Active(s', l, closing) ensures BacklogOk(s'.objs, l, s'.lis[l]) {
      assert Active(s, l, closing);
      HalfChange(s.objs, id, c.(phase := Closed), l);
      WithoutAll(s.lis[l].pending, id);
      WithoutShorter(s.lis[l].pending, id);
      assert forall x :: Waits(s'.objs, x, l) <==> Waits(s.objs, x, l) && x != id;
      assert c.listener != l || c.phase != Open ==>
               id !in s.lis[l].pending by { assert id in s.lis[l].pending <==> Waits(s.objs, id, l); }
    }
    forall x | x in s'.objs && s'.objs[x].phase != Closed ensures Attached(s', s'.objs[x], closing) {
      assert Attached(s, s.objs[x], closing);
    }
  }

  // ---- A handshake completed, a connection accepted -------------------------------------------

  /** The third segment of the handshake: a half-open connection becomes one to accept. */
  function Established(s: Books, id: nat): Books
    requires id in s.objs
  {
    var c := s.objs[id];
    s.(objs := s.objs[id := c.(phase := Open)],
       lis := if c.listener in s.lis then
                var l := s.lis[c.listener];
                s.lis[c.listener := l.(incomplete := if l.incomplete > 0 then l.incomplete - 1 else 0,
                                       pending := l.pending + [id])]
              else s.lis)
  }

  lemma EstablishedBalanced(s: Books, id: nat)
    requires Balanced(s, 0) && id in s.objs && (s.objs[id].phase == SynReceived || s.objs[id].phase == SynSent)
    ensures Balanced(Established(s, id), 0)
  {
    EstablishedRest(s, id);
    EstablishedBacklogs(s, id);
  }

  lemma EstablishedRest(s: Books, id: nat)
    requires ConnsOk(s) && ListenersOk(s) && PortsOk(s, 0) && id in s.objs && s.objs[id].phase != Closed
    ensures ConnsOk(Established(s, id)) && ListenersOk(Established(s, id)) && PortsOk(Established(s, id), 0)
  {
    hide Locals;
    var s' := Established(s, id);
    forall a ensures Count(s'.ports, a) == Due(s', a, 0) { assert Count(s.ports, a) == Due(s, a, 0); }
  }

  lemma EstablishedBacklogs(s: Books, id: nat)
    requires BacklogsOk(s, 0) && 0 !in s.lis && id in s.objs
             && (s.objs[id].phase == SynReceived || s.objs[id].phase == SynSent)
    ensures BacklogsOk(Established(s, id), 0)
  {
    hide Half;
    var s', c := Established(s, id), s.objs[id];
    assert Attached(s, c, 0);
    forall l | Active(s', l, 0) ensures BacklogOk(s'.objs, l, s'.lis[l]) {
      assert Active(s, l, 0);
      HalfChange(s.objs, id, c.(phase := Open), l);
      assert id !in s.lis[l].pending by { assert id in s.lis[l].pending <==> Waits(s.objs, id, l); }
      assert forall x :: Waits(s'.objs, x, l) <==> Waits(s.objs, x, l) || (x == id && c.listener == l);
    }
    forall x | x in s'.objs && s'.objs[x].phase != Closed ensures Attached(s', s'.objs[x], 0) {
      assert Attached(s, s.objs[x], 0);
    }
  }

  /** Accept hands out the connection that has waited longest. */
  function Accepted(s: Books, l: nat): Books
    requires l in s.lis && s.lis[l].pending != [] && s.lis[l].pending[0] in s.objs
  {
    var id := s.lis[l].pending[0];
    s.(objs := s.objs[id := s.objs[id].(listener := 0)], lis := s.lis[l := s.lis[l].(pending := s.lis[l].pending[1..])])
  }

  /** What waits is open, so Accept never meets a closed connection. */
  lemma PendingOpen(s: Books, l: nat, i: nat)
    requires Balanced(s, 0) && l in s.lis && !s.lis[l].closed && i < |s.lis[l].pending|
    ensures s.lis[l].pending[i] in s.objs && s.objs[s.lis[l].pending[i]].phase == Open
            && s.objs[s.lis[l].pending[i]].listener == l
  {
    hide Half, ConnsOk, PortsOk, ListenersOk;
    assert Active(s, l, 0);
    assert s.lis[l].pending[i] in s.lis[l].pending;
    assert Waits(s.objs, s.lis[l].pending[i], l);
  }

  lemma AcceptedBalanced(s: Books, l: nat)
    requires Balanced(s, 0) && l in s.lis && !s.lis[l].closed && s.lis[l].pending != []
    ensures s.lis[l].pending[0] in s.objs && Balanced(Accepted(s, l), 0)
  {
    PendingOpen(s, l, 0);
    AcceptedRest(s, l);
    AcceptedBacklogs(s, l);
  }

  lemma AcceptedRest(s: Books, l: nat)
    requires ConnsOk(s) && ListenersOk(s) && PortsOk(s, 0) && l in s.lis && s.lis[l].pending != []
             && s.lis[l].pending[0] in s.objs
    ensures ConnsOk(Accepted(s, l)) && ListenersOk(Accepted(s, l)) && PortsOk(Accepted(s, l), 0)
  {
    hide Locals;
    var s' := Accepted(s, l);
    forall a ensures Count(s'.ports, a) == Due(s', a, 0) { assert Count(s.ports, a) == Due(s, a, 0); }
  }

  lemma AcceptedBacklogs(s: Books, l: nat)
    requires BacklogsOk(s, 0) && 0 !in s.lis && l in s.lis && !s.lis[l].closed && s.lis[l].pending != []
    requires s.lis[l].pending[0] in s.objs && s.objs[s.lis[l].pending[0]].phase == Open
             && s.objs[s.lis[l].pending[0]].listener == l
    ensures BacklogsOk(Accepted(s, l), 0)
  {
    hide Half;
    var s', id := Accepted(s, l), s.lis[l].pending[0];
    forall k | Active(s', k, 0) ensures BacklogOk(s'.objs, k, s'.lis[k]) {
      assert Active(s, k, 0);
      HalfSame(s.objs, id, k);
      assert forall x :: Waits(s'.objs, x, k) <==> Waits(s.objs, x, k) && (x != id || k != l);
      if k == l {
        var p := s.lis[l].pending;
        assert forall x :: x in p <==> x == p[0] || x in p[1..];
        assert p[0] !in p[1..];
      }
    }
    forall x | x in s'.objs && s'.objs[x].phase != Closed ensures Attached(s', s'.objs[x], 0) {
      assert Attached(s, s.objs[x], 0);
    }
  }

  lemma HalfSame(objs: map<nat, Conn>, id: nat, l: nat)
    requires id in objs && objs[id].phase == Open
    ensures Half(objs[id := objs[id].(listener := 0)], l) == Half(objs, l)
  {
  }

  // ---- Listeners ------------------------------------------------------------------------------

  function Listening(s: Books, l: nat, a: Addr): Books {
    s.(listeners := s.listeners[a := l], lis := s.lis[l := Listener(a, 0, [], false)], ports := Charged(s.ports, a))
  }

  lemma ListeningBalanced(s: Books, l: nat, a: Addr)
    requires Balanced(s, 0) && l !in s.lis && l != 0 && Count(s.ports, a) == 0
    requires forall id :: id in s.objs ==> s.objs[id].listener != l
    ensures Balanced(Listening(s, l, a), 0)
  {
    hide BacklogsOk, ConnsOk;
    ListeningPorts(s, l, a);
    ListeningBacklogs(s, l, a);
    SameConns(s, Listening(s, l, a));
  }

  lemma SameConns(s: Books, s': Books)
    requires ConnsOk(s) && s'.conns == s.conns && s'.objs == s.objs
    ensures ConnsOk(s')
  {
  }

  lemma ListeningPorts(s: Books, l: nat, a: Addr)
    requires PortsOk(s, 0) && ListenersOk(s) && l !in s.lis && l != 0 && Count(s.ports, a) == 0
    ensures PortsOk(Listening(s, l, a), 0) && ListenersOk(Listening(s, l, a))
  {
    hide Locals;
    var s' := Listening(s, l, a);
    assert Count(s.ports, a) == Due(s, a, 0);
    forall b ensures Count(s'.ports, b) == Due(s', b, 0) { assert Count(s.ports, b) == Due(s, b, 0); }
  }

  lemma ListeningBacklogs(s: Books, l: nat, a: Addr)
    requires BacklogsOk(s, 0) && l !in s.lis && l != 0
    requires forall id :: id in s.objs ==> s.objs[id].listener != l
    ensures BacklogsOk(Listening(s, l, a), 0)
  {
    hide Half;
    var s' := Listening(s, l, a);
    forall k | Active(s', k, 0) ensures BacklogOk(s'.objs, k, s'.lis[k]) {
      if k == l { NoHalf(s.objs, l); } else { assert Active(s, k, 0); }
    }
    forall x | x in s'.objs && s'.objs[x].phase != Closed ensures Attached(s', s'.objs[x], 0) {
      assert Attached(s, s.objs[x], 0);
    }
  }

  lemma NoHalf(objs: map<nat, Conn>, l: nat)
    requires forall id :: id in objs ==> objs[id].listener != l
    ensures Half(objs, l) == {}
  {
  }

  /** Listener.Close marks the listener and takes it out of the table first. */
  function Closing(s: Books, l: nat): Books
    requires l in s.lis
  {
    s.(listeners := s.listeners - {s.lis[l].local}, lis := s.lis[l := s.lis[l].(closed := true)])
  }

  lemma ClosingBalanced(s: Books, l: nat)
    requires Balanced(s, 0) && l in s.lis && !s.lis[l].closed
    ensures Balanced(Closing(s, l), l)
  {
    hide BacklogsOk, ConnsOk;
    ClosingPorts(s, l);
    ClosingBacklogs(s, l);
    SameConns(s, Closing(s, l));
  }

  lemma ClosingPorts(s: Books, l: nat)
    requires PortsOk(s, 0) && ListenersOk(s) && l in s.lis && !s.lis[l].closed
    ensures PortsOk(Closing(s, l), l) && ListenersOk(Closing(s, l))
  {
    hide Locals;
    var s' := Closing(s, l);
    forall a ensures Count(s'.ports, a) == Due(s', a, l) { assert Count(s.ports, a) == Due(s, a, 0); }
  }

  lemma ClosingBacklogs(s: Books, l: nat)
    requires BacklogsOk(s, 0) && l in s.lis && !s.lis[l].closed && 0 !in s.lis
    ensures BacklogsOk(Closing(s, l), l)
  {
    hide Half, Distinct;
    var s' := Closing(s, l);
    forall k | Active(s', k, l) ensures BacklogOk(s'.objs, k, s'.lis[k]) {
      assert Active(s, k, 0);
      assert BacklogOk(s.objs, k, s.lis[k]);
    }
    forall x | x in s'.objs && s'.objs[x].phase != Closed ensures Attached(s', s'.objs[x], l) {
      assert Attached(s, s.objs[x], 0);
    }
  }

  /** And last gives up what waits and its address. */
  function ListenerGone(s: Books, l: nat): Books
    requires l in s.lis && s.lis[l].local in s.ports && s.ports[s.lis[l].local] > 0
  {
    s.(lis := s.lis[l := s.lis[l].(pending := [])], ports := Released(s.ports, s.lis[l].local))
  }

  lemma GoneBalanced(s: Books, l: nat)
    requires Balanced(s, l) && l in s.lis && s.lis[l].closed
    requires forall id :: id in s.objs && s.objs[id].phase != Closed ==> s.objs[id].listener != l
    ensures s.lis[l].local in s.ports && s.ports[s.lis[l].local] > 0
    ensures Balanced(ListenerGone(s, l), 0)
  {
    hide BacklogsOk, ConnsOk;
    GonePorts(s, l);
    GoneBacklogs(s, l);
    SameConns(s, ListenerGone(s, l));
  }

  lemma GonePorts(s: Books, l: nat)
    requires PortsOk(s, l) && ListenersOk(s) && l in s.lis && s.lis[l].closed
    ensures s.lis[l].local in s.ports && s.ports[s.lis[l].local] > 0
    ensures PortsOk(ListenerGone(s, l), 0) && ListenersOk(ListenerGone(s, l))
  {
    hide Locals;
    assert Count(s.ports, s.lis[l].local) == Due(s, s.lis[l].local, l);
    var s' := ListenerGone(s, l);
    forall a ensures Count(s'.ports, a) == Due(s', a, 0) { assert Count(s.ports, a) == Due(s, a, l); }
  }

  lemma GoneBacklogs(s: Books, l: nat)
    requires BacklogsOk(s, l) && l in s.lis && s.lis[l].closed && 0 !in s.lis
    requires s.lis[l].local in s.ports && s.ports[s.lis[l].local] > 0
    requires forall id :: id in s.objs && s.objs[id].phase != Closed ==> s.objs[id].listener != l
    ensures BacklogsOk(ListenerGone(s, l), 0)
  {
    hide Half, Distinct, Released;
    var s' := ListenerGone(s, l);
    forall k | Active(s', k, 0) ensures BacklogOk(s'.objs, k, s'.lis[k]) {
      assert Active(s, k, l);
      assert BacklogOk(s.objs, k, s.lis[k]);
    }
    forall x | x in s'.objs && s'.objs[x].phase != Closed ensures Attached(s', s'.objs[x], 0) {
      assert Attached(s, s.objs[x], l);
    }
  }
}
