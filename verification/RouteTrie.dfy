/** The routing table: a binary trie of prefixes, against a linear scan of the routes it holds. */
module RouteTrie {
  import opened Words

  type Addr = s: seq<byte> | |s| == 4 witness [0, 0, 0, 0]
  type Path = seq<bool>

  datatype Route = Route(dst: Addr, mask: Addr, nextHop: Addr, hasNextHop: bool, netIf: string)

  // ---- Bits and prefixes ----------------------------------------------------------------------

  /** Bit i of an address, the most significant first. */
  function Bit(a: Addr, i: nat): bool
    requires i < 32
  {
    var b: int := a[i / 8];
    b / Pow2(7 - i % 8) % 2 == 1
  }

  function Bits(a: Addr, n: nat): (p: Path)
    requires n <= 32
    ensures |p| == n && forall i :: 0 <= i < n ==> p[i] == Bit(a, i)
  {
    seq(n, i requires 0 <= i < n => Bit(a, i))
  }

  function ToU(a: Addr): u32 {
    var b0: int, b1: int, b2: int, b3: int := a[0], a[1], a[2], a[3];
    b0 * 0x100_0000 + b1 * 0x1_0000 + b2 * 0x100 + b3
  }

  /** The number of bits up to the last one set; for a contiguous mask, the prefix length. */
  function MaskSize(mask: u32): (n: nat)
    ensures n <= 32
  {
    if mask == 0 then 0 else LastSet(mask, 1)
  }

  /** mask << i is 0 in 32 bits. */
  predicate ShiftedOut(mask: u32, i: nat) {
    mask * Pow2(i) % 0x1_0000_0000 == 0
  }

  function LastSet(mask: u32, i: nat): (n: nat)
    requires 1 <= i <= 32
    ensures i <= n <= 32
    decreases 32 - i
  {
    if i == 32 || ShiftedOut(mask, i) then i else LastSet(mask, i + 1)
  }

  /** A contiguous mask of n ones has size n. */
  lemma MaskSizeContiguous(n: nat)
    requires n <= 32
    ensures 0 <= 0x1_0000_0000 - Pow2(32 - n) < 0x1_0000_0000
    ensures MaskSize(0x1_0000_0000 - Pow2(32 - n)) == n
  {
    hide Pow2, LastSet;
    Pow2Values();
    Pow2Monotone(32 - n, 32);
    if n > 0 {
      LastSetContiguous(n, 1);
    }
  }

  lemma ContiguousShift(n: nat, i: nat)
    requires 1 <= i <= n <= 32 && 0 <= 0x1_0000_0000 - Pow2(32 - n) < 0x1_0000_0000
    ensures ShiftedOut(0x1_0000_0000 - Pow2(32 - n), i) <==> i == n
  {
    hide Pow2;
    var mask := 0x1_0000_0000 - Pow2(32 - n);
    Pow2Values();
    Pow2Adds(32 - n, i);
    assert mask * Pow2(i) == Pow2(i) * 0x1_0000_0000 - Pow2(32 - n + i);
    if i == n {
      ModUnique(mask * Pow2(i), 0x1_0000_0000, Pow2(i) - 1, 0);
    } else {
      Pow2Monotone(32 - n + i, 32);
      ModUnique(mask * Pow2(i), 0x1_0000_0000, Pow2(i) - 1, 0x1_0000_0000 - Pow2(32 - n + i));
    }
  }

  lemma {:induction false} LastSetContiguous(n: nat, i: nat)
    requires 1 <= i <= n <= 32 && 0 <= 0x1_0000_0000 - Pow2(32 - n) < 0x1_0000_0000
    ensures LastSet(0x1_0000_0000 - Pow2(32 - n), i) == n
    decreases n - i
  {
    hide Pow2, ShiftedOut;
    ContiguousShift(n, i);
    if i < n { LastSetContiguous(n, i + 1); }
  }

  function PrefixOf(r: Route): (p: Path)
    ensures |p| <= 32
  {
    Bits(r.dst, MaskSize(ToU(r.mask)))
  }

  // ---- The linear scan ------------------------------------------------------------------------

  /** The fields by which UpdateRoute recognises a route. */
  predicate Same(a: Route, b: Route) {
    && a.dst == b.dst && a.mask == b.mask && a.hasNextHop == b.hasNextHop
    && (!a.hasNextHop || a.nextHop == b.nextHop) && a.netIf == b.netIf
  }

  /** A route and the prefix it is filed under, which need not be its own. */
  datatype Filed = Filed(path: Path, route: Route)

  /** The routes filed under one prefix, in the order they were added. */
  function Select(log: seq<Filed>, p: Path): seq<Route> {
    if log == [] then [] else (if log[0].path == p then [log[0].route] else []) + Select(log[1..], p)
  }

  /** A list without a route. */
  function Without(list: seq<Route>, r: Route): seq<Route> {
    if list == [] then [] else (if Same(list[0], r) then [] else [list[0]]) + Without(list[1..], r)
  }

  /** The log without a route, where that route is filed under its own prefix. */
  function Removed(log: seq<Filed>, r: Route): seq<Filed> {
    if log == [] then []
    else (if log[0].path == PrefixOf(r) && Same(log[0].route, r) then [] else [log[0]]) + Removed(log[1..], r)
  }

  /** The length of the longest prefix of ip, up to n bits, that has a route; -1 when there is none. */
  function Longest(log: seq<Filed>, ip: Addr, n: nat): (l: int)
    requires n <= 32
    ensures -1 <= l <= n
  {
    if Select(log, Bits(ip, n)) != [] then n else if n == 0 then -1 else Longest(log, ip, n - 1)
  }

  /** The routes of the longest matching prefix. */
  function BestRoutes(log: seq<Filed>, ip: Addr): seq<Route> {
    var l := Longest(log, ip, 32);
    if l < 0 then [] else Select(log, Bits(ip, l))
  }

  /** A prefix matches an address that starts with it. */
  predicate Covers(p: Path, ip: Addr) {
    p <= Bits(ip, 32)
  }

  predicate Matches(r: Route, ip: Addr) {
    Covers(PrefixOf(r), ip)
  }

  lemma {:induction false} SelectMember(log: seq<Filed>, p: Path, r: Route)
    ensures r in Select(log, p) <==> Filed(p, r) in log
  {
    if log != [] { SelectMember(log[1..], p, r); }
  }

  lemma BitsPrefix(ip: Addr, n: nat)
    requires n <= 32
    ensures Bits(ip, 32)[..n] == Bits(ip, n)
  {
    hide Bit;
  }

  lemma {:induction false} LongestIs(log: seq<Filed>, ip: Addr, n: nat, m: nat)
    requires m <= n <= 32 && Longest(log, ip, n) < m
    ensures Select(log, Bits(ip, m)) == []
    decreases n
  {
    hide Bits, Select;
    if m < n { LongestIs(log, ip, n - 1, m); }
  }

  /** Nothing in the log covers the address with a prefix longer than n. */
  predicate NoneLonger(log: seq<Filed>, ip: Addr, n: int) {
    forall f :: f in log && Covers(f.path, ip) ==> |f.path| <= n
  }

  lemma LongestBounds(log: seq<Filed>, ip: Addr)
    ensures NoneLonger(log, ip, Longest(log, ip, 32))
  {
    hide Longest, Select;
    forall f | f in log && Covers(f.path, ip) ensures |f.path| <= Longest(log, ip, 32) {
      var n := |f.path|;
      BitsPrefix(ip, n);
      assert f == Filed(Bits(ip, n), f.route);
      SelectMember(log, Bits(ip, n), f.route);
      if n > Longest(log, ip, 32) { LongestIs(log, ip, 32, n); }
    }
  }

  /**
   * The scan is longest-prefix match over the prefixes in use: the routes filed under the longest one, and all of them.
   */
  lemma BestFiled(log: seq<Filed>, ip: Addr, r: Route)
    ensures r in BestRoutes(log, ip) <==>
            exists f :: f in log && f.route == r && Covers(f.path, ip) && NoneLonger(log, ip, |f.path|)
    ensures BestRoutes(log, ip) == [] <==> forall f :: f in log ==> !Covers(f.path, ip)
  {
    hide Longest, Select;
    var l := Longest(log, ip, 32);
    LongestBounds(log, ip);
    if l >= 0 {
      var p := Bits(ip, l);
      BitsPrefix(ip, l);
      LongestSome(log, ip, 32);
      var best := Select(log, p)[0];
      SelectMember(log, p, best);
      SelectMember(log, p, r);
      if f :| f in log && f.route == r && Covers(f.path, ip) && NoneLonger(log, ip, |f.path|) {
        assert Filed(p, best) in log && |f.path| == l && f.path == Bits(ip, 32)[..l];
      }
      if r in Select(log, p) { assert Filed(p, r) in log && Covers(p, ip); }
    }
  }

  /** Every route is filed under its own prefix. */
  predicate OwnPrefixes(log: seq<Filed>) {
    forall f :: f in log ==> f.path == PrefixOf(f.route)
  }

  /** A route is in the log, under its own prefix. */
  predicate Listed(log: seq<Filed>, r: Route) {
    Filed(PrefixOf(r), r) in log
  }

  /** Then the scan is longest-prefix match: the matching routes that no matching route beats, and all of them. */
  lemma BestRoutesAreLongest(log: seq<Filed>, ip: Addr, r: Route)
    requires OwnPrefixes(log)
    ensures r in BestRoutes(log, ip) <==>
            && Listed(log, r) && Matches(r, ip)
            && forall q :: Listed(log, q) && Matches(q, ip) ==> |PrefixOf(q)| <= |PrefixOf(r)|
    ensures BestRoutes(log, ip) == [] <==> forall q :: Listed(log, q) ==> !Matches(q, ip)
  {
    hide PrefixOf, BestRoutes, Bits;
    BestFiled(log, ip, r);
    forall f | f in log ensures Listed(log, f.route) && f == Filed(PrefixOf(f.route), f.route) {
    }
    if r in BestRoutes(log, ip) {
      var f :| f in log && f.route == r && Covers(f.path, ip) && NoneLonger(log, ip, |f.path|);
      forall q | Listed(log, q) && Matches(q, ip) ensures |PrefixOf(q)| <= |PrefixOf(r)| {
        assert Covers(Filed(PrefixOf(q), q).path, ip);
      }
    }
  }

  lemma {:induction false} LongestSome(log: seq<Filed>, ip: Addr, n: nat)
    requires n <= 32 && Longest(log, ip, n) >= 0
    ensures Select(log, Bits(ip, Longest(log, ip, n))) != []
  {
    hide Bits, Select;
    if n > 0 && Longest(log, ip, n) < n { LongestSome(log, ip, n - 1); }
  }

  // ---- Updating the log -----------------------------------------------------------------------

  lemma {:induction false} SelectAppend(a: seq<Filed>, b: seq<Filed>, p: Path)
    ensures Select(a + b, p) == Select(a, p) + Select(b, p)
  {
    hide Select;
    SelectNone(p);
    if a == [] {
      assert a + b == b;
    } else {
      SelectAppend(a[1..], b, p);
      assert (a + b)[1..] == a[1..] + b;
      SelectCons(a + b, p);
      SelectCons(a, p);
    }
  }

  /** Removing a route touches only its own prefix. */
  lemma {:induction false} SelectRemoved(log: seq<Filed>, r: Route, p: Path)
    ensures Select(Removed(log, r), p) == if p == PrefixOf(r) then Without(Select(log, p), r) else Select(log, p)
  {
    hide PrefixOf, Select, Without, Removed, Same;
    SelectNone(p);
    if log == [] {
      WithoutNone(r);
      RemovedNone(r);
    } else {
      var x, rest := log[0], log[1..];
      SelectRemoved(rest, r, p);
      SelectCons(log, p);
      RemovedCons(log, r);
      Prepended(x, Removed(rest, r), p);
      PrependedWithout(x.route, Select(rest, p), r);
    }
  }

  lemma Prepended(x: Filed, log: seq<Filed>, p: Path)
    ensures Select([x] + log, p) == (if x.path == p then [x.route] else []) + Select(log, p)
    ensures [] + log == log && [] + Select(log, p) == Select(log, p)
  {
    hide Select;
    SelectCons([x] + log, p);
    assert ([x] + log)[1..] == log;
  }

  lemma PrependedWithout(x: Route, list: seq<Route>, r: Route)
    ensures Without([x] + list, r) == (if Same(x, r) then [] else [x]) + Without(list, r)
    ensures [] + list == list && [] + Without(list, r) == Without(list, r)
  {
    hide Same, Without;
    WithoutCons([x] + list, r);
    assert ([x] + list)[1..] == list;
  }

  lemma SelectNone(p: Path)
    ensures Select([], p) == []
  {
  }

  lemma WithoutNone(r: Route)
    ensures Without([], r) == []
  {
  }

  lemma RemovedNone(r: Route)
    ensures Removed([], r) == []
  {
  }

  lemma SelectCons(log: seq<Filed>, p: Path)
    requires log != []
    ensures Select(log, p) == (if log[0].path == p then [log[0].route] else []) + Select(log[1..], p)
  {
  }

  lemma WithoutCons(list: seq<Route>, r: Route)
    requires list != []
    ensures Without(list, r) == (if Same(list[0], r) then [] else [list[0]]) + Without(list[1..], r)
  {
  }

  lemma RemovedCons(log: seq<Filed>, r: Route)
    requires log != []
    ensures Removed(log, r) ==
            (if log[0].path == PrefixOf(r) && Same(log[0].route, r) then [] else [log[0]]) + Removed(log[1..], r)
  {
  }

  /** What is left was there, and all of it but the route removed. */
  lemma {:induction false} RemovedMember(log: seq<Filed>, r: Route, f: Filed)
    ensures f in Removed(log, r) <==> f in log && !(f.path == PrefixOf(r) && Same(f.route, r))
  {
    hide PrefixOf, Same;
    if log != [] { RemovedMember(log[1..], r, f); }
  }
}
