/** DHCP bindings: what each kind of server step does to the lease table, and what holds over every run. */
module Dhcp {
  import opened Words

  const LEASE_TIME: nat := 3600
  const OFFER_TIME: nat := 60

  type Mac = nat
  type Xid = nat

  /** exp is 0 until the address is confirmed. */
  datatype Lease = Lease(mac: Mac, exp: nat, offerExp: nat, xid: Xid)

  type Leases = map<u32, Lease>

  datatype Net = Net(self: u32, mask: u32)

  // ---- Addresses ------------------------------------------------------------------------------

  /** Bitwise and. */
  function And(x: nat, y: nat): (r: nat)
    ensures r <= y
    decreases y
  {
    if y == 0 then 0 else 2 * And(x / 2, y / 2) + (if x % 2 == 1 && y % 2 == 1 then 1 else 0)
  }

  function Network(net: Net): u32 {
    And(net.self, net.mask)
  }

  /** The network address with every host bit set; those bits are clear in it, so the or is a sum. */
  function Broadcast(net: Net): u32 {
    Network(net) + (0xffff_ffff - net.mask)
  }

  /** An address the server may hand out. */
  predicate Usable(net: Net, ip: u32) {
    Network(net) < ip < Broadcast(net) && ip != net.self && And(ip, net.mask) == Network(net)
  }

  predicate Current(lease: Lease, now: nat) {
    lease.exp > now || lease.offerExp > now
  }

  /** An address free to offer. */
  predicate Free(net: Net, s: Leases, ip: u32, now: nat) {
    Usable(net, ip) && (ip in s ==> !Current(s[ip], now))
  }

  // ---- Steps ----------------------------------------------------------------------------------

  datatype Event = Offered(ip: u32, mac: Mac) | Acked(ip: u32, mac: Mac) | Released(ip: u32, mac: Mac) | Nothing

  predicate Pruned(s: Leases, s': Leases, now: nat) {
    && s'.Keys <= s.Keys && (forall ip :: ip in s' ==> s'[ip] == s[ip])
    && (forall ip :: ip in s && ip !in s' ==> !Current(s[ip], now))
  }

  predicate HasCurrent(s: Leases, mac: Mac, now: nat) {
    exists ip :: ip in s && s[ip].mac == mac && Current(s[ip], now)
  }

  predicate Step(net: Net, s: Leases, s': Leases, now: nat, event: Event) {
    match event
    case Offered(ip, mac) =>
      && Usable(net, ip) && ip in s' && s'[ip].mac == mac && s'[ip].offerExp == now + OFFER_TIME
      && s' == s[ip := s'[ip]]
      && (if ip in s && s[ip].mac == mac && Current(s[ip], now) then s'[ip].exp == s[ip].exp
          else Free(net, s, ip, now) && !HasCurrent(s, mac, now) && s'[ip].exp == 0)
    case Acked(ip, mac) =>
      ip in s && s[ip].mac == mac && Current(s[ip], now) && s' == s[ip := s[ip].(exp := now + LEASE_TIME)]
    case Released(ip, mac) =>
      ip in s && s[ip].mac == mac && s' == s - {ip}
    case Nothing => Pruned(s, s', now)
  }

  // ---- Bindings -------------------------------------------------------------------------------

  /** The current leases bind each MAC to at most one address, all of them usable. */
  predicate Bindings(net: Net, s: Leases, now: nat) {
    && (forall ip :: ip in s ==> Usable(net, ip))
    && (forall i, j :: i in s && j in s && s[i].mac == s[j].mac && Current(s[i], now) && Current(s[j], now) ==> i == j)
  }

  lemma StepBindings(net: Net, s: Leases, s': Leases, now: nat, event: Event)
    requires Bindings(net, s, now) && Step(net, s, s', now, event)
    ensures Bindings(net, s', now)
  {
    hide Usable;
  }

  lemma LaterBindings(net: Net, s: Leases, now: nat, later: nat)
    requires Bindings(net, s, now) && now <= later
    ensures Bindings(net, s, later)
  {
    hide Usable;
  }

  // ---- Runs -----------------------------------------------------------------------------------

  /** What happened, and when. */
  datatype Record = Record(event: Event, at: nat)

  predicate Ordered(trace: seq<Record>) {
    forall i, j :: 0 <= i < j < |trace| ==> trace[i].at <= trace[j].at
  }

  /** states[i] leads to states[i + 1] by trace[i]. */
  predicate IsRun(net: Net, states: seq<Leases>, trace: seq<Record>) {
    && |states| == |trace| + 1 && states[0] == map[] && Ordered(trace)
    && forall i :: 0 <= i < |trace| ==> Step(net, states[i], states[i + 1], trace[i].at, trace[i].event)
  }

  lemma {:induction false} RunBindings(net: Net, states: seq<Leases>, trace: seq<Record>, k: nat, now: nat)
    requires IsRun(net, states, trace) && k <= |trace| && (k > 0 ==> trace[k - 1].at <= now)
    ensures Bindings(net, states[k], now)
    decreases k
  {
    hide Usable, Bindings, Step;
    if k == 0 {
      NoBindings(net, now);
    } else {
      if k > 1 { assert trace[k - 2].at <= trace[k - 1].at; }
      RunBindings(net, states, trace, k - 1, trace[k - 1].at);
      assert Step(net, states[k - 1], states[k - 1 + 1], trace[k - 1].at, trace[k - 1].event);
      StepBindings(net, states[k - 1], states[k], trace[k - 1].at, trace[k - 1].event);
      LaterBindings(net, states[k], trace[k - 1].at, now);
    }
  }

  lemma NoBindings(net: Net, now: nat)
    ensures Bindings(net, map[], now)
  {
  }

  predicate ReleasedBetween(trace: seq<Record>, i: nat, j: nat, ip: u32, mac: Mac) {
    exists k :: i < k < j && k < |trace| && trace[k].event == Released(ip, mac)
  }

  /** While a lease runs, a step concerning its address is its holder's; only a release ends it early. */
  lemma HolderKeeps(net: Net, s: Leases, s': Leases, now: nat, event: Event, ip: u32)
    requires Step(net, s, s', now, event) && ip in s && s[ip].exp > now
    ensures (event.Offered? || event.Acked?) && event.ip == ip ==> event.mac == s[ip].mac
    ensures event != Released(ip, s[ip].mac) ==>
              ip in s' && s'[ip].mac == s[ip].mac && (s'[ip].exp >= s[ip].exp || s'[ip].exp >= now + LEASE_TIME)
  {
    hide Usable;
  }

  /** From an ACK to its expiry, the address stays with its holder until the holder releases it. */
  lemma {:induction false} HeldUntil(net: Net, states: seq<Leases>, trace: seq<Record>, i: nat, j: nat)
    requires IsRun(net, states, trace) && i < j <= |trace| && trace[i].event.Acked?
    requires trace[j - 1].at < trace[i].at + LEASE_TIME
    requires !ReleasedBetween(trace, i, j, trace[i].event.ip, trace[i].event.mac)
    ensures var ip := trace[i].event.ip;
            ip in states[j] && states[j][ip].mac == trace[i].event.mac && states[j][ip].exp >= trace[i].at + LEASE_TIME
    decreases j
  {
    var ip, mac := trace[i].event.ip, trace[i].event.mac;
    var last := trace[j - 1];
    assert Step(net, states[j - 1], states[j - 1 + 1], last.at, last.event);
    hide Usable, Free, Current, HasCurrent;
    if j > i + 1 {
      hide Step;
      assert trace[j - 2].at <= last.at && trace[i].at <= last.at;
      assert !ReleasedBetween(trace, i, j - 1, ip, mac);
      HeldUntil(net, states, trace, i, j - 1);
      assert last.event != Released(ip, mac);
      HolderKeeps(net, states[j - 1], states[j], last.at, last.event, ip);
    }
  }

  /**
   * An acknowledged address is never offered or acknowledged to another client before the lease expires, unless its
   * holder released it in between.
   */
  lemma AckedAddressIsSafe(net: Net, states: seq<Leases>, trace: seq<Record>, i: nat, j: nat)
    requires IsRun(net, states, trace) && i < j < |trace| && trace[i].event.Acked?
    requires trace[j].event.Offered? || trace[j].event.Acked?
    requires trace[j].event.ip == trace[i].event.ip && trace[j].event.mac != trace[i].event.mac
    requires trace[j].at < trace[i].at + LEASE_TIME
    ensures ReleasedBetween(trace, i, j, trace[i].event.ip, trace[i].event.mac)
  {
    hide Step, ReleasedBetween;
    assert Step(net, states[j], states[j + 1], trace[j].at, trace[j].event);
    if !ReleasedBetween(trace, i, j, trace[i].event.ip, trace[i].event.mac) {
      assert trace[j - 1].at <= trace[j].at;
      HeldUntil(net, states, trace, i, j);
      HolderKeeps(net, states[j], states[j + 1], trace[j].at, trace[j].event, trace[i].event.ip);
    }
  }
}
