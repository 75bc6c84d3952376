/** The server side of DHCP: DISCOVER, REQUEST, RELEASE and the expiry sweep over the lease table. */
module DhcpServer {
  import opened Words
  import opened Options
  import opened Dhcp

  datatype Reply = Silent | Offer(ip: u32) | Ack(ip: u32) | Nak

  /** The address at a distance from start in the cycle of host addresses. */
  function Candidate(net: Net, start: nat, offset: nat): nat
    requires Hosts(net) > 0
  {
    Network(net) + 1 + (start + offset) % Hosts(net)
  }

  function Hosts(net: Net): int {
    Broadcast(net) - Network(net) - 1
  }

  /** Every host address comes up once in the cycle. */
  lemma CycleCovers(net: Net, start: nat, ip: u32) returns (offset: nat)
    requires Network(net) < ip < Broadcast(net) && start < Hosts(net)
    ensures offset < Hosts(net) && Candidate(net, start, offset) == ip
    ensures forall o: nat :: o < Hosts(net) && Candidate(net, start, o) == ip ==> o == offset
  {
    var n, x := Hosts(net), ip - Network(net) - 1;
    offset := if x >= start then x - start else x - start + n;
    ModUnique(start + offset, n, if x >= start then 0 else 1, x);
    forall o: nat | o < n && Candidate(net, start, o) == ip ensures o == offset {
      if start + o < n {
        ModUnique(start + o, n, 0, start + o);
      } else {
        ModUnique(start + o, n, 1, start + o - n);
      }
    }
  }

  lemma CandidateBounds(net: Net, start: nat, offset: nat)
    requires Hosts(net) > 0
    ensures Network(net) < Candidate(net, start, offset) < Broadcast(net)
  {
  }

  class Server {
    const net: Net
    const hash: Mac -> nat
    var leases: Leases

    constructor (net: Net, hash: Mac -> nat)
      ensures leases == map[] && forall now :: Bindings(net, leases, now)
    {
      this.net, this.hash, leases := net, hash, map[];
    }

    /** A current lease of the client, a confirmed one for preference. */
    method FindLease(mac: Mac, now: nat) returns (found: Option<u32>)
      requires Bindings(net, leases, now)
      ensures found.None? <==> !HasCurrent(leases, mac, now)
      ensures found.Some? ==> found.value in leases && leases[found.value].mac == mac
                              && Current(leases[found.value], now)
    {
      hide Usable, And;
      found := None;
      var todo := leases.Keys;
      while todo != {}
        invariant todo <= leases.Keys
        invariant found.None? ==> forall ip :: ip in leases && ip !in todo ==>
                                                 !(leases[ip].mac == mac && Current(leases[ip], now))
        invariant found.Some? ==> found.value in leases && leases[found.value].mac == mac
                                  && Current(leases[found.value], now)
        decreases |todo|
      {
        var ip :| ip in todo;
        todo := todo - {ip};
        var lease := leases[ip];
        if lease.mac == mac && !(lease.exp <= now && lease.offerExp <= now) && Usable(net, ip) {
          if found.None? || lease.exp > now {
            found := Some(ip);
          }
          if lease.exp > now { return; }
        }
      }
    }

    /** Searches the host addresses once round, from a point the client's MAC decides. */
    method Search(mac: Mac, now: nat) returns (found: Option<u32>)
      ensures found.None? <==> forall ip :: !Free(net, leases, ip, now)
      ensures found.Some? ==> Free(net, leases, found.value, now)
      ensures found.Some? ==> FirstFree(net, leases, hash(mac), found.value, now)
    {
      hide And, Usable, Broadcast, Network, Candidate;
      if Broadcast(net) - Network(net) <= 1 {
        NoHosts(net, leases, now);
        return None;
      }
      var count := Hosts(net);
      var start := hash(mac) % count;
      var offset := 0;
      while offset < count
        invariant 0 <= offset <= count
        invariant forall o: nat :: o < offset ==> !FreeAt(net, leases, Candidate(net, start, o), now)
      {
        CandidateBounds(net, start, offset);
        var ip := Candidate(net, start, offset);
        if Usable(net, ip) && !(ip in leases && (leases[ip].exp > now || leases[ip].offerExp > now)) {
          assert Free(net, leases, ip, now);
          assert FirstFree(net, leases, hash(mac), ip, now);
          return Some(ip);
        }
        offset := offset + 1;
      }
      AllTried(net, leases, start, now);
      found := None;
    }

    /**
     * Offers the client its current address, or else a free one. The answer is an offer exactly when the client has
     * an address or a free one exists and can be recorded.
     */
    method Discover(mac: Mac, server: Option<u32>, xid: Xid, now: nat, made: bool, entered: bool) returns (reply: Reply)
      requires Bindings(net, leases, now)
      modifies this
      ensures Bindings(net, leases, now)
      ensures reply.Silent? || reply.Offer?
      ensures Step(net, old(leases), leases, now, if reply.Offer? then Offered(reply.ip, mac) else Nothing)
      ensures reply.Offer? <==>
              && (server.Some? ==> server.value == net.self)
              && (HasCurrent(old(leases), mac, now)
                  || (made && entered && exists ip :: Free(net, old(leases), ip, now)))
      ensures reply.Offer? ==> leases[reply.ip].xid == xid
      ensures reply.Offer? && !HasCurrent(old(leases), mac, now) ==>
                FirstFree(net, old(leases), hash(mac), reply.ip, now)
    {
      hide And, Usable;
      reply := Silent;
      ghost var s := leases;
      if server.Some? && server.value != net.self { return; }
      var found := FindLease(mac, now);
      var ip: u32;
      if found.None? {
        found := Search(mac, now);
        if found.None? { return; }
        ip := found.value;
        if ip in leases { leases := leases - {ip}; }
        if !made || !entered {
          StepBindings(net, s, leases, now, Nothing);
          return;
        }
        leases := leases[ip := Lease(mac, 0, now + OFFER_TIME, xid)];
        assert leases == s[ip := leases[ip]];
      } else {
        ip := found.value;
        leases := leases[ip := leases[ip].(offerExp := now + OFFER_TIME, xid := xid)];
      }
      reply := Offer(ip);
      StepBindings(net, s, leases, now, Offered(ip, mac));
    }

    /** The address a REQUEST is about; nothing when the message is malformed. */
    function Requested(server: Option<u32>, ciaddr: u32, option: Option<u32>): Option<u32> {
      if ciaddr == 0 then option
      else if server.Some? || option.Some? then None
      else Some(ciaddr)
    }

    /** The lease a REQUEST confirms: the client's own, offered in this transaction or still running. */
    predicate Confirms(mac: Mac, server: Option<u32>, xid: Xid, ip: u32, now: nat)
      reads this
    {
      && Usable(net, ip) && ip in leases && leases[ip].mac == mac
      && if server.Some? then leases[ip].offerExp != 0 && leases[ip].xid == xid && Current(leases[ip], now)
         else leases[ip].exp > now
    }

    /**
     * A usable address whose request gets no answer: the client's offer of another transaction, or an unknown client's.
     */
    predicate Unanswered(mac: Mac, server: Option<u32>, xid: Xid, ip: u32)
      reads this
    {
      if server.Some? then ip in leases && leases[ip].mac == mac && leases[ip].offerExp != 0 && leases[ip].xid != xid
      else forall a :: a in leases ==> leases[a].mac != mac || leases[a].exp == 0
    }

    /** Acknowledges exactly the requests that confirm a lease, and renews that lease. */
    method Request(mac: Mac, server: Option<u32>, ciaddr: u32, option: Option<u32>, xid: Xid, now: nat)
      returns (reply: Reply)
      requires Bindings(net, leases, now)
      modifies this
      ensures Bindings(net, leases, now)
      ensures !reply.Offer?
      ensures Step(net, old(leases), leases, now, if reply.Ack? then Acked(reply.ip, mac) else Nothing)
      ensures !reply.Ack? ==> leases == old(leases)
      ensures var ip := Requested(server, ciaddr, option);
              && (reply.Ack? <==> (server.Some? ==> server.value == net.self) && ip.Some?
                                  && old(Confirms(mac, server, xid, ip.value, now)))
              && (reply.Ack? ==> reply.ip == ip.value)
              && (reply.Silent? <==>
                    || (server.Some? && server.value != net.self)
                    || ip.None?
                    || (Usable(net, ip.value) && old(Unanswered(mac, server, xid, ip.value))))
    {
      hide And, Usable;
      reply := Silent;
      ghost var s := leases;
      if server.Some? && server.value != net.self { return; }
      var requested := Requested(server, ciaddr, option);
      if requested.None? { return; }
      var ip := requested.value;
      if !Usable(net, ip) { return Nak; }
      if server.Some? {
        if ip !in leases || leases[ip].mac != mac || leases[ip].offerExp == 0 { return Nak; }
        if leases[ip].xid != xid { return Silent; }
        if leases[ip].offerExp <= now && leases[ip].exp <= now { return Nak; }
      } else {
        if ip !in leases || leases[ip].mac != mac || leases[ip].exp == 0 {
          var known := KnownClient(mac);
          if !known { return Silent; }
          return Nak;
        }
        if leases[ip].exp <= now { return Nak; }
      }
      leases := leases[ip := leases[ip].(exp := now + LEASE_TIME)];
      reply := Ack(ip);
      StepBindings(net, s, leases, now, Acked(ip, mac));
    }

    method KnownClient(mac: Mac) returns (known: bool)
      ensures known <==> exists a :: a in leases && leases[a].mac == mac && leases[a].exp != 0
    {
      known := false;
      var todo := leases.Keys;
      while todo != {}
        invariant todo <= leases.Keys
        invariant forall a :: a in leases && a !in todo ==> !(leases[a].mac == mac && leases[a].exp != 0)
        decreases |todo|
      {
        var a :| a in todo;
        todo := todo - {a};
        if leases[a].mac == mac && leases[a].exp != 0 { return true; }
      }
    }

    method Release(mac: Mac, server: Option<u32>, ciaddr: u32, now: nat)
      requires Bindings(net, leases, now)
      modifies this
      ensures Bindings(net, leases, now)
      ensures var released := (server.Some? ==> server.value == net.self) && ciaddr != 0
                && ciaddr in old(leases) && old(leases)[ciaddr].mac == mac && old(leases)[ciaddr].exp != 0;
              && Step(net, old(leases), leases, now, if released then Released(ciaddr, mac) else Nothing)
              && (!released ==> leases == old(leases))
    {
      hide And, Usable;
      if server.Some? && server.value != net.self { return; }
      if ciaddr == 0 { return; }
      if ciaddr in leases && leases[ciaddr].mac == mac && leases[ciaddr].exp != 0 {
        StepBindings(net, leases, leases - {ciaddr}, now, Released(ciaddr, mac));
        leases := leases - {ciaddr};
      }
    }

    /** Removes exactly the leases whose term and offer have both run out. */
    method Clear(now: nat)
      requires Bindings(net, leases, now)
      modifies this
      ensures Bindings(net, leases, now)
      ensures Step(net, old(leases), leases, now, Nothing)
      ensures forall ip :: ip in leases ==> Current(leases[ip], now)
    {
      hide And, Usable;
      var todo := leases.Keys;
      while todo != {}
        invariant todo <= leases.Keys
        invariant Pruned(old(leases), leases, now)
        invariant forall ip :: ip in leases && ip !in todo ==> Current(leases[ip], now)
        decreases |todo|
      {
        var ip :| ip in todo;
        todo := todo - {ip};
        if leases[ip].exp <= now && leases[ip].offerExp <= now {
          leases := leases - {ip};
        }
      }
      StepBindings(net, old(leases), leases, now, Nothing);
    }
  }

  /** Free, for a number that is known to be an address only inside the host range. */
  predicate FreeAt(net: Net, s: Leases, a: nat, now: nat) {
    a < 0x1_0000_0000 && Free(net, s, a, now)
  }

  /** The first free address met going round the hosts from the place the hash picks. */
  ghost predicate FirstFree(net: Net, s: Leases, hash: nat, ip: u32, now: nat) {
    && Hosts(net) > 0
    && exists offset: nat ::
         && offset < Hosts(net) && Candidate(net, hash % Hosts(net), offset) == ip
         && FreeAt(net, s, ip, now)
         && forall o: nat :: o < offset ==> !FreeAt(net, s, Candidate(net, hash % Hosts(net), o), now)
  }

  lemma NoHosts(net: Net, s: Leases, now: nat)
    requires Broadcast(net) - Network(net) <= 1
    ensures forall ip :: !Free(net, s, ip, now)
  {
  }

  lemma AllTried(net: Net, s: Leases, start: nat, now: nat)
    requires Hosts(net) > 0 && start < Hosts(net)
    requires forall o: nat :: o < Hosts(net) ==> !FreeAt(net, s, Candidate(net, start, o), now)
    ensures forall ip :: !Free(net, s, ip, now)
  {
    hide And, Candidate;
    forall ip | Free(net, s, ip, now) ensures false {
      var o := CycleCovers(net, start, ip);
    }
  }
}
