/** The routing trie in memory: nodes linked by address, walked and extended bit by bit. */
module RouteTable {
  import opened Words
  import opened Options
  import opened RouteTrie

  /** A node; routes is None for the nil slice a new node starts with, and 0 is the nil pointer. */
  datatype Node = Node(routes: Option<seq<Route>>, left: nat, right: nat)

  type Memory = map<nat, Node>

  function Child(n: Node, bit: bool): nat {
    if bit then n.right else n.left
  }

  function WithChild(n: Node, bit: bool, c: nat): Node {
    if bit then n.(right := c) else n.(left := c)
  }

  // ---- The shape ------------------------------------------------------------------------------

  predicate Linked(m: Memory, at: map<Path, nat>, p: Path)
    requires p in at
  {
    && at[p] in m && at[p] != 0
    && (forall bit :: Child(m[at[p]], bit) == if p + [bit] in at then at[p + [bit]] else 0)
  }

  /** at says where the node of each path lies; every node has one path, and every prefix of a path has a node. */
  predicate Shape(m: Memory, at: map<Path, nat>) {
    && [] in at
    && (forall p :: p in at ==> Linked(m, at, p))
    && (forall p, q :: p in at && q in at && at[p] == at[q] ==> p == q)
    && (forall p :: p in at && p != [] ==> p[..|p| - 1] in at)
  }

  /** What an update files. */
  function FiledAt(p: Path, r: Option<Route>): seq<Filed> {
    if r.Some? then [Filed(p, r.value)] else []
  }

  /** The prefixes ever updated have lists, and each list is what the log has for its prefix. */
  ghost predicate Holds(m: Memory, at: map<Path, nat>, log: seq<Filed>, touched: set<Path>)
    requires Shape(m, at)
  {
    && (forall p :: p in at ==> (m[at[p]].routes.Some? <==> p in touched))
    && (forall p :: p in touched ==> p in at && m[at[p]].routes == Some(Select(log, p)))
    && (forall p :: Select(log, p) != [] ==> p in touched)
  }

  lemma {:induction false} PrefixHasNode(m: Memory, at: map<Path, nat>, p: Path, n: nat)
    requires Shape(m, at) && p in at && n <= |p|
    ensures p[..n] in at
    decreases |p|
  {
    if n == |p| {
      assert p[..n] == p;
    } else {
      var q := p[..|p| - 1];
      PrefixHasNode(m, at, q, n);
      assert q[..n] == p[..n];
    }
  }

  /** A new leaf below p. */
  function Grow(m: Memory, at: map<Path, nat>, p: Path, bit: bool, id: nat): Memory
    requires p in at && at[p] in m
  {
    m[id := Node(None, 0, 0)][at[p] := WithChild(m[at[p]], bit, id)]
  }

  lemma InMemory(m: Memory, at: map<Path, nat>)
    requires Shape(m, at)
    ensures [] in at && forall p :: p in at ==> at[p] in m && at[p] != 0
  {
    forall p | p in at ensures at[p] in m && at[p] != 0 { assert Linked(m, at, p); }
  }

  lemma Grown(m: Memory, at: map<Path, nat>, p: Path, bit: bool, id: nat)
    requires Shape(m, at) && p in at && p + [bit] !in at && id !in m && id != 0
    ensures at[p] in m && Shape(Grow(m, at, p, bit, id), at[p + [bit] := id])
  {
    InMemory(m, at);
    var m' := Grow(m, at, p, bit, id);
    var c := p + [bit];
    var at' := at[c := id];
    assert c[..|c| - 1] == p;
    forall q | q in at' ensures Linked(m', at', q) {
      GrownLinked(m, at, p, bit, id, q);
    }
  }

  lemma GrownLinked(m: Memory, at: map<Path, nat>, p: Path, bit: bool, id: nat, q: Path)
    requires Shape(m, at) && p in at && p + [bit] !in at && id !in m && id != 0 && at[p] in m
    requires q in at || q == p + [bit]
    ensures Linked(Grow(m, at, p, bit, id), at[p + [bit] := id], q)
  {
    var m', c := Grow(m, at, p, bit, id), p + [bit];
    var at' := at[c := id];
    InMemory(m, at);
    if q == c {
      NoDeeper(m, at, c);
      assert forall b :: c + [b] !in at';
    } else {
      assert Linked(m, at, q);
      forall b ensures Child(m'[at'[q]], b) == if q + [b] in at' then at'[q + [b]] else 0 {
        if q + [b] == c { assert (q + [b])[..|q|] == q && c[..|p|] == p && (q + [b])[|q|] == b && c[|p|] == bit; }
        assert Child(m[at[q]], b) == if q + [b] in at then at[q + [b]] else 0;
      }
    }
  }

  lemma NoDeeper(m: Memory, at: map<Path, nat>, c: Path)
    requires Shape(m, at) && c !in at
    ensures forall b :: c + [b] !in at
  {
    forall b ensures c + [b] !in at {
      var d := c + [b];
      assert d[..|d| - 1] == c;
    }
  }

  /** A node created without routes changes no list. */
  lemma GrownHolds(m: Memory, at: map<Path, nat>, log: seq<Filed>, touched: set<Path>, p: Path, bit: bool, id: nat)
    requires Shape(m, at) && p in at && p + [bit] !in at && id !in m && id != 0 && Holds(m, at, log, touched)
    ensures at[p] in m && Shape(Grow(m, at, p, bit, id), at[p + [bit] := id])
    ensures Holds(Grow(m, at, p, bit, id), at[p + [bit] := id], log, touched)
  {
    hide Select, Shape, Linked;
    InMemory(m, at);
    Grown(m, at, p, bit, id);
  }

  // ---- Lookup ---------------------------------------------------------------------------------

  datatype Lookup = NoRoute | Chosen(route: Route) | DivideByZero

  /** The list of the deepest node, among the first n + 1 on the way to ip, that has one. */
  function Deepest(m: Memory, at: map<Path, nat>, ip: Addr, n: nat): Option<seq<Route>>
    requires Shape(m, at) && n <= 32
  {
    var p := Bits(ip, n);
    if p in at && (assert Linked(m, at, p); m[at[p]].routes.Some?) then m[at[p]].routes
    else if n == 0 then None else Deepest(m, at, ip, n - 1)
  }

  lemma {:induction false} DeeperNone(m: Memory, at: map<Path, nat>, ip: Addr, i: nat, n: nat)
    requires Shape(m, at) && i <= n <= 32 && (i < 32 ==> Bits(ip, i + 1) !in at)
    ensures Deepest(m, at, ip, n) == Deepest(m, at, ip, i)
    decreases n
  {
    hide Bits;
    if n > i {
      DeeperNone(m, at, ip, i, n - 1);
      if Bits(ip, n) in at {
        PrefixHasNode(m, at, Bits(ip, n), i + 1);
        BitsTake(ip, n, i + 1);
      }
    }
  }

  lemma BitsTake(ip: Addr, n: nat, i: nat)
    requires i <= n <= 32
    ensures Bits(ip, n)[..i] == Bits(ip, i)
  {
    hide Bit;
  }

  lemma BitsNext(ip: Addr, i: nat)
    requires i < 32
    ensures Bits(ip, i + 1) == Bits(ip, i) + [Bit(ip, i)]
  {
    hide Bit;
  }

  lemma ListAt(m: Memory, at: map<Path, nat>, log: seq<Filed>, touched: set<Path>, p: Path)
    requires Shape(m, at) && Holds(m, at, log, touched)
    ensures p in at ==> at[p] in m
    ensures p in at && m[at[p]].routes.Some? <==> p in touched
    ensures p in touched ==> p in at && m[at[p]].routes == Some(Select(log, p))
    ensures p !in touched ==> Select(log, p) == []
  {
    hide Select;
    InMemory(m, at);
  }

  /** The deepest list is the longest match of the scan, unless a longer prefix was emptied. */
  lemma {:induction false} DeepestIsLongest(m: Memory, at: map<Path, nat>, log: seq<Filed>, touched: set<Path>,
                                            ip: Addr, n: nat)
    requires Shape(m, at) && Holds(m, at, log, touched) && n <= 32
    ensures var l := Longest(log, ip, n);
            match Deepest(m, at, ip, n)
            case None => l == -1 && forall k: nat :: k <= n ==> Bits(ip, k) !in touched
            case Some(list) =>
              if list == [] then exists k: nat :: l < k <= n && Bits(ip, k) in touched
              else l >= 0 && list == Select(log, Bits(ip, l)) && forall k: nat :: l < k <= n ==> Bits(ip, k) !in touched
  {
    hide Select, Bits, Shape, Holds, Linked;
    ListAt(m, at, log, touched, Bits(ip, n));
    if Bits(ip, n) !in touched && n > 0 {
      DeepestIsLongest(m, at, log, touched, ip, n - 1);
    }
  }

  // ---- The table ------------------------------------------------------------------------------

  /** The number of mask bits the trie descends, as UpdateRoute counts them. */
  method CountMask(mask: u32) returns (n: nat)
    ensures n == MaskSize(mask)
  {
    hide ShiftedOut;
    n := 0;
    if mask != 0 {
      for i := 1 to 33
        invariant n == i - 1 && (i <= 32 ==> LastSet(mask, i) == LastSet(mask, 1))
                  && (i == 33 ==> LastSet(mask, 1) == 32)
      {
        n := n + 1;
        if ShiftedOut(mask, i) { return; }
      }
    }
  }

  method Filter(list: seq<Route>, r: Route) returns (kept: seq<Route>)
    ensures kept == Without(list, r)
  {
    hide Same, Without;
    kept := [];
    WithoutNone(r);
    for i := 0 to |list|
      invariant kept + Without(list[i..], r) == Without(list, r)
    {
      WithoutCons(list[i..], r);
      assert list[i..][1..] == list[i + 1..];
      if !Same(list[i], r) { kept := kept + [list[i]]; }
    }
  }

  class Table {
    const root: nat
    const hash: Addr -> nat
    var nodes: Memory
    var next: nat
    ghost var at: map<Path, nat>
    ghost var log: seq<Filed>
    ghost var touched: set<Path>

    ghost predicate Valid()
      reads this
    {
      && Shape(nodes, at) && at[[]] == root && Holds(nodes, at, log, touched)
      && next > 0 && forall id :: id in nodes ==> id < next
    }

    constructor (hash: Addr -> nat)
      ensures Valid() && log == [] && touched == {}
    {
      root, this.hash, next := 1, hash, 2;
      nodes := map[1 := Node(None, 0, 0)];
      at := map[[] := 1];
      log, touched := [], {};
    }

    /** Walks down the first n bits of an address, adding the nodes that are missing. */
    method Descend(dst: Addr, n: nat) returns (node: nat)
      requires Valid() && n <= 32
      modifies this`nodes, this`next, this`at
      ensures Valid() && Bits(dst, n) in at && node == at[Bits(dst, n)]
    {
      hide Shape, Holds, Bits, Linked, Bit;
      node := root;
      BitsNone(dst);
      InMemory(nodes, at);
      for i := 0 to n
        invariant Valid() && Bits(dst, i) in at && node == at[Bits(dst, i)]
      {
        ghost var p := Bits(dst, i);
        InMemory(nodes, at);
        BitsNext(dst, i);
        var bit := Bit(dst, i);
        ChildOf(nodes, at, p, bit);
        if Child(nodes[node], bit) == 0 {
          GrownHolds(nodes, at, log, touched, p, bit, next);
          nodes := nodes[next := Node(None, 0, 0)][node := WithChild(nodes[node], bit, next)];
          at := at[p + [bit] := next];
          next := next + 1;
          GrownChild(nodes, at, p, bit);
        }
        node := Child(nodes[node], bit);
      }
    }

    /** Takes before out of the list of its prefix and adds after at the end of that list, whatever its own prefix. */
    method UpdateRoute(before: Route, after: Option<Route>)
      requires Valid()
      modifies this
      ensures Valid() && touched == old(touched) + {PrefixOf(before)}
      ensures log == Removed(old(log), before) + FiledAt(PrefixOf(before), after)
    {
      hide Shape, Holds, Bits, Linked, Without, Removed, Select;
      var n := CountMask(ToU(before.mask));
      var node := Descend(before.dst, n);
      InMemory(nodes, at);
      var list := if nodes[node].routes.Some? then nodes[node].routes.value else [];
      var kept := Filter(list, before);
      if after.Some? { kept := kept + [after.value]; }
      assert kept == Without(list, before) + if after.Some? then [after.value] else [];
      ReplacedHolds(nodes, at, log, touched, before, after, list);
      nodes := nodes[node := nodes[node].(routes := Some(kept))];
      log, touched := Removed(log, before) + FiledAt(PrefixOf(before), after), touched + {PrefixOf(before)};
    }

    method AddRoute(r: Route)
      requires Valid()
      modifies this
      ensures Valid() && log == Removed(old(log), r) + [Filed(PrefixOf(r), r)]
              && touched == old(touched) + {PrefixOf(r)}
      ensures old(NoneEmptied()) ==> NoneEmptied()
      ensures OwnPrefixes(old(log)) ==> OwnPrefixes(log)
    {
      hide Select, Removed, PrefixOf, Holds, Shape;
      ghost var log0 := log;
      UpdateRoute(r, Some(r));
      forall p ensures Select(log0, p) != [] || p == PrefixOf(r) ==> Select(log, p) != [] {
        AddedSelect(log0, r, p);
      }
      RemovedOwn(log0, r);
    }

    /** Every prefix ever updated still has a route. */
    ghost predicate NoneEmptied()
      reads this
    {
      forall p :: p in touched ==> Select(log, p) != []
    }

    method DeleteRoute(r: Route)
      requires Valid()
      modifies this
      ensures Valid() && log == Removed(old(log), r) && touched == old(touched) + {PrefixOf(r)}
      ensures OwnPrefixes(old(log)) ==> OwnPrefixes(log)
    {
      hide Select, Removed, PrefixOf, Holds, Shape;
      ghost var log0 := log;
      UpdateRoute(r, None);
      assert Removed(log0, r) + [] == Removed(log0, r);
      RemovedOwn(log0, r);
    }

    /**
     * Picks among the routes filed under the longest matching prefix by the hash of the address. The choice divides by
     * zero exactly when a prefix of the address longer than the longest match was updated but has no route left.
     */
    method FindRoute(ip: Addr) returns (r: Lookup)
      requires Valid()
      ensures r == DivideByZero <==> exists k: nat :: Longest(log, ip, 32) < k <= 32 && Bits(ip, k) in touched
      ensures NoneEmptied() ==> r != DivideByZero
      ensures r != DivideByZero ==>
                r == if BestRoutes(log, ip) == [] then NoRoute
                     else Chosen(BestRoutes(log, ip)[hash(ip) % |BestRoutes(log, ip)|])
      ensures r != DivideByZero ==> (r == NoRoute <==> forall f :: f in log ==> !Covers(f.path, ip))
    {
      hide Shape, Holds, Bits, Linked, Bit, Select, Longest;
      var last := DeepestList(ip);
      DeepestIsLongest(nodes, at, log, touched, ip, 32);
      forall k: nat | Longest(log, ip, 32) < k <= 32
        ensures Select(log, Bits(ip, k)) == [] { LongestIs(log, ip, 32, k); }
      if Longest(log, ip, 32) >= 0 { LongestSome(log, ip, 32); }
      NothingCovers(log, ip);
      if last.None? { return NoRoute; }
      if |last.value| == 0 { return DivideByZero; }
      r := Chosen(last.value[hash(ip) % |last.value|]);
    }

    method DeepestList(ip: Addr) returns (last: Option<seq<Route>>)
      requires Valid()
      ensures last == Deepest(nodes, at, ip, 32)
    {
      hide Shape, Holds, Bits, Linked, Bit, Deepest;
      last := None;
      InMemory(nodes, at);
      var node := root;
      BitsNone(ip);
      var i := 0;
      while i < 32
        invariant 0 <= i <= 32 && Bits(ip, i) in at && node == at[Bits(ip, i)]
        invariant last == if i == 0 then None else Deepest(nodes, at, ip, i - 1)
      {
        DeepestStep(nodes, at, ip, i);
        BitsNext(ip, i);
        if nodes[node].routes.Some? { last := nodes[node].routes; }
        var bit := Bit(ip, i);
        ChildOf(nodes, at, Bits(ip, i), bit);
        if Child(nodes[node], bit) == 0 {
          DeeperNone(nodes, at, ip, i, 32);
          return;
        }
        node := Child(nodes[node], bit);
        i := i + 1;
      }
      DeepestStep(nodes, at, ip, 32);
      if nodes[node].routes.Some? { last := nodes[node].routes; }
    }
  }

  lemma BitsNone(a: Addr)
    ensures Bits(a, 0) == []
  {
  }

  lemma ChildOf(m: Memory, at: map<Path, nat>, p: Path, bit: bool)
    requires Shape(m, at) && p in at
    ensures at[p] in m && Child(m[at[p]], bit) == if p + [bit] in at then at[p + [bit]] else 0
    ensures p + [bit] in at ==> at[p + [bit]] != 0
  {
    InMemory(m, at);
    assert Linked(m, at, p);
  }

  lemma GrownChild(m: Memory, at: map<Path, nat>, p: Path, bit: bool)
    requires Shape(m, at) && p in at && p + [bit] in at
    ensures at[p] in m && Child(m[at[p]], bit) == at[p + [bit]]
  {
    ChildOf(m, at, p, bit);
  }

  lemma DeepestStep(m: Memory, at: map<Path, nat>, ip: Addr, n: nat)
    requires Shape(m, at) && n <= 32 && Bits(ip, n) in at
    ensures at[Bits(ip, n)] in m
    ensures Deepest(m, at, ip, n) == if m[at[Bits(ip, n)]].routes.Some? then m[at[Bits(ip, n)]].routes
                                     else if n == 0 then None else Deepest(m, at, ip, n - 1)
  {
    hide Bits;
    InMemory(m, at);
  }

  /** Replacing one node's list replaces the log's routes for its prefix. */
  lemma ReplacedHolds(m: Memory, at: map<Path, nat>, log: seq<Filed>, touched: set<Path>,
                      before: Route, after: Option<Route>, list: seq<Route>)
    requires Shape(m, at) && Holds(m, at, log, touched) && PrefixOf(before) in at && at[PrefixOf(before)] in m
    requires list == if m[at[PrefixOf(before)]].routes.Some? then m[at[PrefixOf(before)]].routes.value else []
    ensures var added := if after.Some? then [after.value] else [];
            var node := at[PrefixOf(before)];
            var m' := m[node := m[node].(routes := Some(Without(list, before) + added))];
            && Shape(m', at)
            && Holds(m', at, Removed(log, before) + FiledAt(PrefixOf(before), after), touched + {PrefixOf(before)})
  {
    hide Select, Without, Removed, PrefixOf, Shape, Holds;
    var p := PrefixOf(before);
    var node := at[p];
    var added := if after.Some? then [after.value] else [];
    var log' := Removed(log, before) + FiledAt(p, after);
    ReroutedShape(m, at, node, Some(Without(list, before) + added));
    ListAt(m, at, log, touched, p);
    forall q ensures Select(log', q) == if q == p then Without(list, before) + added else Select(log, q) {
      SelectAppend(Removed(log, before), FiledAt(p, after), q);
      SelectRemoved(log, before, q);
      SelectAdded(p, after, q);
    }
    ReroutedHolds(m, at, log, log', touched, p, Without(list, before) + added);
  }

  lemma ReroutedHolds(m: Memory, at: map<Path, nat>, log: seq<Filed>, log': seq<Filed>, touched: set<Path>, p: Path,
                      list: seq<Route>)
    requires Shape(m, at) && Holds(m, at, log, touched) && p in at && at[p] in m
    requires forall q :: Select(log', q) == if q == p then list else Select(log, q)
    requires Shape(m[at[p] := m[at[p]].(routes := Some(list))], at)
    ensures Holds(m[at[p] := m[at[p]].(routes := Some(list))], at, log', touched + {p})
  {
    hide Select, Shape, Linked;
    var m' := m[at[p] := m[at[p]].(routes := Some(list))];
    InMemory(m, at);
    NodeApart(m, at, p);
    forall q | q in at ensures m'[at[q]].routes.Some? <==> q in touched + {p} {
    }
    forall q | q in touched + {p} ensures q in at && m'[at[q]].routes == Some(Select(log', q)) {
    }
    forall q | Select(log', q) != [] ensures q in touched + {p} {
    }
  }

  lemma NodeApart(m: Memory, at: map<Path, nat>, p: Path)
    requires Shape(m, at) && p in at
    ensures forall q :: q in at && at[q] == at[p] ==> q == p
  {
  }

  lemma SelectAdded(p: Path, after: Option<Route>, q: Path)
    ensures Select(FiledAt(p, after), q) == if after.Some? && p == q then [after.value] else []
  {
    if after.Some? { assert Select([Filed(p, after.value)][1..], q) == []; }
  }

  lemma NothingCovers(log: seq<Filed>, ip: Addr)
    ensures BestRoutes(log, ip) == [] <==> forall f :: f in log ==> !Covers(f.path, ip)
  {
    if log != [] {
      BestFiled(log, ip, log[0].route);
    } else {
      NothingMatches(ip, 32);
    }
  }

  lemma RemovedOwn(log: seq<Filed>, r: Route)
    ensures OwnPrefixes(log) ==> OwnPrefixes(Removed(log, r)) && OwnPrefixes(Removed(log, r) + [Filed(PrefixOf(r), r)])
  {
    hide PrefixOf, Removed;
    forall f | f in Removed(log, r) ensures f in log { RemovedMember(log, r, f); }
  }

  lemma ReroutedShape(m: Memory, at: map<Path, nat>, node: nat, routes: Option<seq<Route>>)
    requires Shape(m, at) && node in m
    ensures Shape(m[node := m[node].(routes := routes)], at)
  {
    var m' := m[node := m[node].(routes := routes)];
    forall p | p in at ensures Linked(m', at, p) {
      assert Linked(m, at, p);
      assert forall bit :: Child(m'[at[p]], bit) == Child(m[at[p]], bit);
    }
  }

  lemma AddedSelect(log: seq<Filed>, r: Route, p: Path)
    ensures Select(log, p) != [] || p == PrefixOf(r) ==> Select(Removed(log, r) + [Filed(PrefixOf(r), r)], p) != []
  {
    hide Select, Removed, Without, PrefixOf;
    SelectAppend(Removed(log, r), [Filed(PrefixOf(r), r)], p);
    SelectRemoved(log, r, p);
    SelectAdded(PrefixOf(r), Some(r), p);
  }

  /** A route added and deleted again leaves an empty list: looking up any address it matched divides by zero. */
  method DeletedRouteFails(hash: Addr -> nat, route: Route, ip: Addr) returns (r: Lookup)
    requires Matches(route, ip)
    ensures r == DivideByZero
  {
    hide Select, Removed, PrefixOf, Holds, Shape, Longest;
    var t := new Table(hash);
    t.AddRoute(route);
    t.DeleteRoute(route);
    AddedThenDeleted(route, ip);
    assert Bits(ip, |PrefixOf(route)|) == PrefixOf(route) by { BitsPrefix(ip, |PrefixOf(route)|); }
    r := t.FindRoute(ip);
  }

  lemma AddedThenDeleted(route: Route, ip: Addr)
    ensures Removed(Removed([], route) + [Filed(PrefixOf(route), route)], route) == []
    ensures Longest([], ip, 32) == -1
  {
    hide Select, Bits;
    var f := Filed(PrefixOf(route), route);
    assert Removed([], route) + [f] == [f];
    assert Removed([f][1..], route) == [];
    NothingMatches(ip, 32);
  }

  lemma {:induction false} NothingMatches(ip: Addr, n: nat)
    requires n <= 32
    ensures Longest([], ip, n) == -1
  {
    hide Bits, Select;
    SelectNone(Bits(ip, n));
    if n > 0 { NothingMatches(ip, n - 1); }
  }

  /** A route filed under another prefix than its own answers for the addresses of that prefix, matching or not. */
  method MisfiledRouteChosen(hash: Addr -> nat, before: Route, after: Route, ip: Addr) returns (r: Lookup)
    ensures r == if Matches(before, ip) then Chosen(after) else NoRoute
  {
    hide Select, Removed, PrefixOf, Holds, Shape, BestRoutes;
    var t := new Table(hash);
    t.UpdateRoute(before, Some(after));
    RemovedNone(before);
    ghost var f := Filed(PrefixOf(before), after);
    assert t.log == [f];
    OneFiled(f, ip);
    assert t.NoneEmptied() by { SelectAdded(f.path, Some(after), f.path); }
    r := t.FindRoute(ip);
  }

  lemma OneFiled(f: Filed, ip: Addr)
    ensures BestRoutes([f], ip) == if Covers(f.path, ip) then [f.route] else []
  {
    hide Bits, Select, Longest;
    BestFiled([f], ip, f.route);
    if Covers(f.path, ip) {
      var l := Longest([f], ip, 32);
      SelectAdded(f.path, Some(f.route), Bits(ip, l));
    }
  }
}
