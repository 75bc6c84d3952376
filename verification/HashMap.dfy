/** The chained hash map: a finite map, whatever the hash function and whichever allocations fail. */
module HashMap {
  import opened Options
  import opened Chains

  /** Walks the chain of a key: the entry that has it, or 0 and the last entry of the chain. */
  method Find<K(==), V>(t: Table<K, V>, hash: K -> nat, key: K, ghost chains: seq<seq<nat>>)
    returns (a: nat, last: nat, ghost j: nat)
    requires Shape(t, hash, chains)
    ensures var chain := chains[Home(hash, key, |chains|)];
            && last == (if chain == [] then 0 else if a != 0 then last else chain[|chain| - 1])
            && (a != 0 ==> j < |chain| && chain[j] == a && a in t.entries && t.entries[a].key == key)
            && (a == 0 ==> forall x :: x in t.entries ==> t.entries[x].key != key)
  {
    hide Home, AtHome;
    var b := Home(hash, key, |t.bucket|);
    ghost var chain := chains[b];
    assert Linked(t.entries, chain, t.bucket[b]);
    ChainStart(t, hash, chains, b);
    a, last, j := t.bucket[b], 0, 0;
    while a != 0
      invariant 0 <= j <= |chain| && a == (if j < |chain| then chain[j] else 0) && (a == 0 ==> j == |chain|)
      invariant last == if j == 0 then 0 else chain[j - 1]
      invariant forall i :: 0 <= i < j ==> chain[i] in t.entries && t.entries[chain[i]].key != key
      decreases |chain| - j
    {
      assert Link(t.entries, chain, j);
      if t.entries[a].key == key { return; }
      last := a;
      a := t.entries[a].next;
      j := j + 1;
      if j < |chain| { assert Link(t.entries, chain, j); }
    }
    KeyNowhere(t, hash, key, chains);
  }

  lemma KeyNowhere<K, V>(t: Table<K, V>, hash: K -> nat, key: K, chains: seq<seq<nat>>)
    requires Shape(t, hash, chains)
    requires var chain := chains[Home(hash, key, |chains|)];
             forall i :: 0 <= i < |chain| ==> chain[i] in t.entries && t.entries[chain[i]].key != key
    ensures forall x :: x in t.entries ==> t.entries[x].key != key
  {
    hide Home, Linked, AtHome;
    forall x | x in t.entries ensures t.entries[x].key != key {
      var chain := chains[Home(hash, t.entries[x].key, |chains|)];
      var i :| 0 <= i < |chain| && chain[i] == x;
    }
  }

  /** Enters a pair without growing the table: overwrites, or links a new entry at address a if a is not nil. */
  method Put<K(==), V>(t: Table<K, V>, hash: K -> nat, key: K, value: V, a: nat, ghost chains: seq<seq<nat>>,
                       ghost m: map<K, V>)
    returns (t': Table<K, V>, ok: bool, added: bool, ghost chains': seq<seq<nat>>)
    requires Shape(t, hash, chains) && Holds(t.entries, m) && a !in t.entries
    ensures ok <==> key in m || a != 0
    ensures added <==> key !in m && a != 0
    ensures Shape(t', hash, chains') && Holds(t'.entries, if ok then m[key := value] else m)
    ensures |t'.bucket| == |t.bucket| && t'.entries.Keys == t.entries.Keys + if added then {a} else {}
  {
    hide Home, Shape, Holds, Appended;
    var e, last, j := Find(t, hash, key, chains);
    KeyKnown(t.entries, m, key);
    if e != 0 {
      OverwrittenShape(t, hash, chains, e, value);
      OverwrittenHolds(t.entries, m, e, value);
      return t.(entries := t.entries[e := t.entries[e].(value := value)]), true, false, chains;
    }
    if a == 0 {
      return t, false, false, chains;
    }
    BucketCount(t, hash, chains);
    var b := Home(hash, key, |t.bucket|);
    AppendedShape(t, hash, chains, a, key, value);
    AppendedHolds(t, m, chains[b], b, a, key, value);
    AppendedKeys(t, chains[b], b, a, key, value);
    AppendedCases(t, hash, chains, a, key, value);
    chains' := chains[b := chains[b] + [a]];
    if last == 0 {
      t' := Table(t.bucket[b := a], t.entries[a := Entry(key, value, 0, 0)]);
    } else {
      t' := Table(t.bucket, t.entries[a := Entry(key, value, last, 0)][last := t.entries[last].(next := a)]);
    }
    ok, added := true, true;
  }

  lemma KeyKnown<K, V>(entries: map<nat, Entry<K, V>>, m: map<K, V>, key: K)
    requires Holds(entries, m)
    ensures key in m <==> HasKey(entries, key)
  {
  }

  lemma BucketCount<K, V>(t: Table<K, V>, hash: K -> nat, chains: seq<seq<nat>>)
    requires Shape(t, hash, chains)
    ensures |t.bucket| == |chains| > 0
  {
  }

  lemma AppendedCases<K, V>(t: Table<K, V>, hash: K -> nat, chains: seq<seq<nat>>, a: nat, key: K, value: V)
    requires Shape(t, hash, chains)
    ensures var b := Home(hash, key, |chains|);
            var chain := chains[b];
            && (chain == [] ==> Appended(t, chain, b, a, key, value) ==
                                  Table(t.bucket[b := a], t.entries[a := Entry(key, value, 0, 0)]))
            && (chain != [] ==>
                  && chain[|chain| - 1] in t.entries && chain[|chain| - 1] != 0
                  && Appended(t, chain, b, a, key, value)
                     == Table(t.bucket, t.entries[a := Entry(key, value, chain[|chain| - 1], 0)]
                                        [chain[|chain| - 1] := t.entries[chain[|chain| - 1]].(next := a)]))
  {
    hide Home, AtHome;
    var chain := chains[Home(hash, key, |chains|)];
    assert Linked(t.entries, chain, t.bucket[Home(hash, key, |chains|)]);
    if chain != [] { assert Link(t.entries, chain, |chain| - 1); }
  }

  // ---- Copying every entry --------------------------------------------------------------------

  /** The addresses successive allocations return: nil, or one not in use and not returned before. */
  predicate Usable(supply: seq<nat>, taken: set<nat>) {
    && (forall i :: 0 <= i < |supply| && supply[i] != 0 ==> supply[i] !in taken)
    && (forall i, j :: 0 <= i < j < |supply| && supply[i] != 0 ==> supply[i] != supply[j])
  }

  /** Every new entry came from one of the allocations made so far. */
  predicate Drawn<K, V>(entries: map<nat, Entry<K, V>>, supply: seq<nat>, used: nat) {
    forall a :: a in entries ==> a != 0 && exists i :: 0 <= i < used && i < |supply| && supply[i] == a
  }

  lemma NextDrawn<K, V>(entries: map<nat, Entry<K, V>>, supply: seq<nat>, taken: set<nat>, used: nat)
    requires Drawn(entries, supply, used) && Usable(supply, taken)
    ensures (if used < |supply| then supply[used] else 0) !in entries
  {
  }

  lemma DrawnMore<K, V>(entries: map<nat, Entry<K, V>>, entries': map<nat, Entry<K, V>>, supply: seq<nat>, used: nat)
    requires Drawn(entries, supply, used) && used < |supply| && supply[used] != 0
    requires entries'.Keys == entries.Keys + {supply[used]}
    ensures Drawn(entries', supply, used + 1)
  {
    forall a | a in entries' ensures a != 0 && exists i :: 0 <= i < used + 1 && i < |supply| && supply[i] == a {
      if a in entries {
        var i :| 0 <= i < used && i < |supply| && supply[i] == a;
      } else {
        assert supply[used] == a;
      }
    }
  }

  /** A traversal that is at place j of chain b has passed this entry. */
  predicate Passed<K, V>(t: Table<K, V>, hash: K -> nat, chains: seq<seq<nat>>, a: nat, b: nat, j: nat)
    requires |chains| > 0 && a in t.entries && (b < |chains| ==> j <= |chains[b]|)
  {
    var h := Home(hash, t.entries[a].key, |chains|);
    h < b || (h == b && a in chains[b][..j])
  }

  /** The keys in done are those of the entries passed. */
  ghost predicate Copied<K, V>(t: Table<K, V>, hash: K -> nat, chains: seq<seq<nat>>, m: map<K, V>, done: map<K, V>,
                               b: nat, j: nat) {
    && |chains| > 0 && b <= |chains| && (b < |chains| ==> j <= |chains[b]|)
    && (forall k :: k in done ==> k in m && done[k] == m[k])
    && (forall a :: a in t.entries ==> (t.entries[a].key in done <==> Passed(t, hash, chains, a, b, j)))
  }

  lemma ChainStart<K, V>(t: Table<K, V>, hash: K -> nat, chains: seq<seq<nat>>, b: nat)
    requires Shape(t, hash, chains) && b < |chains|
    ensures t.bucket[b] == (if chains[b] == [] then 0 else chains[b][0]) && (t.bucket[b] == 0 ==> chains[b] == [])
  {
    hide Home;
    assert Linked(t.entries, chains[b], t.bucket[b]);
    if chains[b] != [] { assert Link(t.entries, chains[b], 0); }
  }

  lemma ChainStep<K, V>(t: Table<K, V>, hash: K -> nat, chains: seq<seq<nat>>, b: nat, j: nat)
    requires Shape(t, hash, chains) && b < |chains| && j < |chains[b]|
    ensures var e := chains[b][j];
            && e in t.entries && e != 0 && Home(hash, t.entries[e].key, |chains|) == b
            && t.entries[e].next == (if j + 1 < |chains[b]| then chains[b][j + 1] else 0)
            && (t.entries[e].next == 0 ==> j + 1 == |chains[b]|)
  {
    hide Home;
    assert Linked(t.entries, chains[b], t.bucket[b]) && AtHome(t.entries, hash, chains[b], b, |chains|);
    assert Link(t.entries, chains[b], j);
    if j + 1 < |chains[b]| { assert Link(t.entries, chains[b], j + 1); }
  }

  /** Passing one more entry. */
  lemma PassStep<K, V>(t: Table<K, V>, hash: K -> nat, chains: seq<seq<nat>>, b: nat, j: nat, a: nat)
    requires Shape(t, hash, chains) && b < |chains| && j < |chains[b]| && a in t.entries
    ensures Passed(t, hash, chains, a, b, j + 1) <==> Passed(t, hash, chains, a, b, j) || a == chains[b][j]
    ensures a == chains[b][j] ==> !Passed(t, hash, chains, a, b, j)
  {
    hide Home;
    assert Linked(t.entries, chains[b], t.bucket[b]) && AtHome(t.entries, hash, chains[b], b, |chains|);
    assert chains[b][..j + 1] == chains[b][..j] + [chains[b][j]];
    assert chains[b][j] in chains[b];
  }

  lemma CopyStep<K, V>(t: Table<K, V>, hash: K -> nat, chains: seq<seq<nat>>, m: map<K, V>, done: map<K, V>, b: nat,
                       j: nat)
    requires Shape(t, hash, chains) && Holds(t.entries, m) && Copied(t, hash, chains, m, done, b, j) && b < |chains|
             && j < |chains[b]|
    ensures var e := chains[b][j];
            && e in t.entries && t.entries[e].key !in done && t.entries[e].key in m
            && Copied(t, hash, chains, m, done[t.entries[e].key := t.entries[e].value], b, j + 1)
  {
    hide Shape, Passed;
    ChainStep(t, hash, chains, b, j);
    var e := chains[b][j];
    var done' := done[t.entries[e].key := t.entries[e].value];
    PassStep(t, hash, chains, b, j, e);
    forall a | a in t.entries ensures t.entries[a].key in done' <==> Passed(t, hash, chains, a, b, j + 1) {
      PassStep(t, hash, chains, b, j, a);
    }
  }

  lemma CopiedBucket<K, V>(t: Table<K, V>, hash: K -> nat, chains: seq<seq<nat>>, m: map<K, V>, done: map<K, V>, b: nat)
    requires Shape(t, hash, chains) && b < |chains| && Copied(t, hash, chains, m, done, b, |chains[b]|)
    ensures Copied(t, hash, chains, m, done, b + 1, 0)
  {
    hide Home;
    assert chains[b][..|chains[b]|] == chains[b];
    if b + 1 < |chains| { assert chains[b + 1][..0] == []; }
    forall a | a in t.entries
      ensures Passed(t, hash, chains, a, b, |chains[b]|) == Passed(t, hash, chains, a, b + 1, 0) {
      assert a in chains[Home(hash, t.entries[a].key, |chains|)];
    }
  }

  lemma NothingCopied<K, V>(t: Table<K, V>, hash: K -> nat, chains: seq<seq<nat>>, m: map<K, V>)
    requires |chains| > 0
    ensures Copied(t, hash, chains, m, map[], 0, 0)
  {
    hide Home;
  }

  lemma AllCopied<K, V>(t: Table<K, V>, hash: K -> nat, chains: seq<seq<nat>>, m: map<K, V>, done: map<K, V>)
    requires |chains| > 0 && Holds(t.entries, m) && Copied(t, hash, chains, m, done, |chains|, 0)
    ensures done == m
  {
    hide Home;
    forall k | k in m ensures k in done {
      assert HasKey(t.entries, k);
      var a :| a in t.entries && t.entries[a].key == k;
      assert Passed(t, hash, chains, a, |chains|, 0);
    }
  }

  lemma NothingDrawn<K, V>(entries: map<nat, Entry<K, V>>, supply: seq<nat>)
    requires entries == map[]
    ensures Drawn(entries, supply, 0)
  {
  }

  lemma DoneSmaller<K, V>(t: Table<K, V>, hash: K -> nat, chains: seq<seq<nat>>, done: map<K, V>, m: map<K, V>, b: nat,
                          j: nat, key: K)
    requires Copied(t, hash, chains, m, done, b, j) && key !in done && key in m
    ensures |done| < |m|
  {
    assert done.Keys + {key} <= m.Keys;
    SubsetSize(done.Keys + {key}, m.Keys);
    assert |done.Keys + {key}| == |done.Keys| + 1;
  }

  lemma {:induction false} SubsetSize<T>(a: set<T>, b: set<T>)
    requires a <= b
    ensures |a| <= |b|
    decreases a
  {
    if a != {} {
      var x :| x in a;
      SubsetSize(a - {x}, b - {x});
    }
  }

  lemma EmptyShape<K, V>(t: Table<K, V>, hash: K -> nat, n: nat)
    requires n > 0 && t == Table(seq(n, _ => 0), map[])
    ensures Shape(t, hash, seq(n, _ => [])) && Holds(t.entries, map[])
  {
  }

  class HashMap<K(==), V> {
    const hash: K -> nat
    var bucket: seq<nat>
    var entries: map<nat, Entry<K, V>>
    var len: nat
    ghost var chains: seq<seq<nat>>
    ghost var contents: map<K, V>

    ghost predicate Valid()
      reads this
    {
      Shape(Table(bucket, entries), hash, chains) && Holds(entries, contents) && len == |contents|
    }

    constructor (hash: K -> nat, capacity: nat)
      ensures Valid() && contents == map[] && |bucket| >= 8
    {
      this.hash := hash;
      bucket := seq(if capacity < 8 then 8 else capacity, _ => 0);
      entries, len := map[], 0;
      chains := seq(if capacity < 8 then 8 else capacity, _ => []);
      contents := map[];
      new;
      EmptyShape(Table(bucket, entries), hash, |bucket|);
    }

    method Get(key: K) returns (v: Option<V>)
      requires Valid()
      ensures v == if key in contents then Some(contents[key]) else None
    {
      hide Shape;
      var a, _, _ := Find(Table(bucket, entries), hash, key, chains);
      KeyKnown(entries, contents, key);
      v := if a != 0 then Some(entries[a].value) else None;
    }

    /** Fails only when a new key finds no memory; growing afterwards changes nothing the caller can see. */
    method Set(key: K, value: V, a: nat, listed: bool, supply: seq<nat>) returns (ok: bool)
      requires Valid() && a !in entries && Usable(supply, entries.Keys + {a})
      modifies this
      ensures Valid()
      ensures ok <==> key in old(contents) || a != 0
      ensures contents == if ok then old(contents)[key := value] else old(contents)
      ensures !Crowded(key, ok, old(contents), old(|bucket|)) ==> |bucket| == old(|bucket|)
      ensures Crowded(key, ok, old(contents), old(|bucket|)) ==>
                listed && |supply| >= |contents| && (forall i :: 0 <= i < |contents| ==> supply[i] != 0) ==>
                  |bucket| == 2 * old(|bucket|)
    {
      hide Shape, Holds;
      var t, done, added, chains' := Put(Table(bucket, entries), hash, key, value, a, chains, contents);
      ok := done;
      if ok {
        bucket, entries, chains := t.bucket, t.entries, chains';
        contents := contents[key := value];
        if added {
          len := len + 1;
          if len > |bucket| * 3 / 4 {
            Grow(listed, supply);
          }
        } else {
          assert contents.Keys == old(contents).Keys;
          assert |contents| == |contents.Keys|;
        }
      }
    }

    /** A new key takes the table past three quarters of its buckets. */
    static ghost predicate Crowded(key: K, ok: bool, before: map<K, V>, buckets: nat) {
      ok && key !in before && |before| + 1 > buckets * 3 / 4
    }

    /** Rehashes into twice the buckets. If any allocation fails the old table stays. */
    method Grow(listed: bool, supply: seq<nat>)
      requires Valid() && Usable(supply, entries.Keys)
      modifies this
      ensures Valid() && contents == old(contents)
      ensures |bucket| == old(|bucket|) || |bucket| == 2 * old(|bucket|)
      ensures listed && |supply| >= |contents| && (forall i :: 0 <= i < |contents| ==> supply[i] != 0) ==>
                |bucket| == 2 * old(|bucket|)
    {
      hide Shape, Holds;
      if !listed { return; }
      BucketCount(Table(bucket, entries), hash, chains);
      var t, ok, chains' := Rehash(supply);
      if ok {
        bucket, entries, chains := t.bucket, t.entries, chains';
      }
    }

    /** Enters every entry in a table of twice the buckets, while the allocations last. */
    method Rehash(supply: seq<nat>) returns (t: Table<K, V>, ok: bool, ghost chains': seq<seq<nat>>)
      requires Valid() && Usable(supply, entries.Keys) && |bucket| == |chains| > 0
      ensures ok ==> Shape(t, hash, chains') && Holds(t.entries, contents) && |t.bucket| == 2 * |bucket|
      ensures |supply| >= |contents| && (forall i :: 0 <= i < |contents| ==> supply[i] != 0) ==> ok
    {
      hide Shape, Holds, Home, Copied, Drawn, Usable;
      t, chains' := Table(seq(2 * |bucket|, _ => 0), map[]), seq(2 * |bucket|, _ => []);
      EmptyShape(t, hash, 2 * |bucket|);
      ghost var done: map<K, V> := map[];
      ok := true;
      NothingCopied(Table(bucket, entries), hash, chains, contents);
      NothingDrawn(t.entries, supply);
      var used := 0;
      for b := 0 to |bucket|
        invariant Copying(t, supply, used, chains', done, b, 0)
      {
        t, ok, used, chains', done := RehashChain(t, supply, used, b, chains', done);
        if !ok { return; }
      }
      AllCopied(Table(bucket, entries), hash, chains, contents, done);
    }

    /** The new table holds the pairs of the entries passed so far. */
    ghost predicate Copying(t: Table<K, V>, supply: seq<nat>, used: nat, chains': seq<seq<nat>>, done: map<K, V>,
                            b: nat, j: nat)
      reads this
    {
      && Shape(t, hash, chains') && Holds(t.entries, done) && |t.bucket| == 2 * |bucket|
      && used == |done| && Drawn(t.entries, supply, used)
      && Copied(Table(bucket, entries), hash, chains, contents, done, b, j)
    }

    method RehashChain(t0: Table<K, V>, supply: seq<nat>, used0: nat, b: nat, ghost chains0: seq<seq<nat>>,
                       ghost done0: map<K, V>)
      returns (t: Table<K, V>, ok: bool, used: nat, ghost chains': seq<seq<nat>>, ghost done: map<K, V>)
      requires Valid() && Usable(supply, entries.Keys) && |bucket| == |chains| && b < |bucket|
      requires Copying(t0, supply, used0, chains0, done0, b, 0)
      ensures ok ==> Copying(t, supply, used, chains', done, b + 1, 0)
      ensures |supply| >= |contents| && (forall i :: 0 <= i < |contents| ==> supply[i] != 0) ==> ok
    {
      hide Shape, Holds, Home, Copied, Drawn, Usable;
      ghost var before := Table(bucket, entries);
      t, ok, used, chains', done := t0, true, used0, chains0, done0;
      var e := bucket[b];
      ghost var j := 0;
      ChainStart(before, hash, chains, b);
      while e != 0
        invariant 0 <= j <= |chains[b]| && e == (if j < |chains[b]| then chains[b][j] else 0)
                  && (e == 0 ==> j == |chains[b]|)
        invariant ok && Copying(t, supply, used, chains', done, b, j)
        decreases |chains[b]| - j
      {
        ChainStep(before, hash, chains, b, j);
        CopyStep(before, hash, chains, contents, done, b, j);
        DoneSmaller(before, hash, chains, done, contents, b, j, entries[e].key);
        NextDrawn(t.entries, supply, entries.Keys, used);
        var a := if used < |supply| then supply[used] else 0;
        var t', fine, _, ch := Put(t, hash, entries[e].key, entries[e].value, a, chains', done);
        if !fine {
          ok := false;
          return;
        }
        DrawnMore(t.entries, t'.entries, supply, used);
        t, chains' := t', ch;
        done := done[entries[e].key := entries[e].value];
        used := used + 1;
        e := entries[e].next;
        j := j + 1;
      }
      CopiedBucket(before, hash, chains, contents, done, b);
    }

    /** Unlinks a key's entry, if there is one. */
    method Del(key: K) returns (ghost b: nat, ghost j: nat)
      requires Valid()
      modifies this
      ensures Valid() && contents == old(contents) - {key} && bucket != [] && |bucket| == |old(bucket)|
      ensures key !in old(contents) ==> chains == old(chains)
      ensures key in old(contents) ==>
                && b == Home(hash, key, |bucket|) && b < |old(chains)| && j < |old(chains)[b]|
                && chains == old(chains)[b := Cut(old(chains)[b], j)]
                && old(chains)[b][j] in old(entries) && old(entries)[old(chains)[b][j]].key == key
      ensures forall x :: x in entries <==> x in old(entries) && old(entries)[x].key != key
      ensures forall x :: x in entries ==>
                            entries[x].key == old(entries)[x].key && entries[x].value == old(entries)[x].value
    {
      hide Shape, Holds, Home, Cut;
      var t := Table(bucket, entries);
      BucketCount(t, hash, chains);
      var a, _, k := Find(t, hash, key, chains);
      KeyKnown(entries, contents, key);
      b, j := Home(hash, key, |bucket|), k;
      if a == 0 {
        assert contents - {key} == contents;
        return;
      }
      Removal(t, hash, chains, contents, b, j);
      chains := chains[b := Cut(chains[b], j)];
      contents := contents - {key};
      var front, next := entries[a].front, entries[a].next;
      if front != 0 {
        entries := entries[front := entries[front].(next := next)];
      } else {
        bucket := bucket[Home(hash, key, |bucket|) := next];
      }
      if next != 0 {
        entries := entries[next := entries[next].(front := front)];
      }
      entries := entries - {a};
      len := len - 1;
    }

    method Clear()
      requires Valid()
      modifies this
      ensures Valid() && contents == map[] && |bucket| == |old(bucket)|
    {
      hide Shape, Holds;
      BucketCount(Table(bucket, entries), hash, chains);
      bucket := seq(|bucket|, _ => 0);
      entries, len := map[], 0;
      chains, contents := seq(|bucket|, _ => []), map[];
      EmptyShape(Table(bucket, entries), hash, |bucket|);
    }

    /**
     * Visits the pairs in bucket order until a visit says stop; a visit may delete the pair it is given. No pair is
     * visited twice, and unless stopped every pair is visited.
     */
    method For(visit: (K, V) -> Verdict) returns (visited: seq<(K, V)>, stopped: bool)
      requires Valid()
      modifies this
      ensures Valid()
      ensures forall i :: 0 <= i < |visited| ==>
                            visited[i].0 in old(contents) && visited[i].1 == old(contents)[visited[i].0]
      ensures forall i, j :: 0 <= i < j < |visited| ==> visited[i].0 != visited[j].0
      ensures !stopped ==> forall k :: k in old(contents) ==> Visited(visited, k)
      ensures forall k :: k in contents <==>
                            k in old(contents) && !(Visited(visited, k) && visit(k, old(contents)[k]).delete)
      ensures forall k :: k in contents ==> contents[k] == old(contents)[k]
    {
      hide Shape, Holds, Home, Sweeping;
      visited, stopped := [], false;
      ghost var m := contents;
      BucketCount(Table(bucket, entries), hash, chains);
      var n := |bucket|;
      SweepStart(Table(bucket, entries), hash, chains, m, visit);
      for b := 0 to n
        invariant Valid() && |bucket| == n == |chains|
        invariant Sweeping(Table(bucket, entries), hash, chains, m, contents, visit, visited, b, 0)
      {
        visited, stopped := VisitChain(visit, visited, b, m);
        if stopped {
          return;
        }
      }
      SweepAll(Table(bucket, entries), hash, chains, m, contents, visit, visited);
    }

    /** One bucket of the traversal. */
    method VisitChain(visit: (K, V) -> Verdict, visited0: seq<(K, V)>, b: nat, ghost m: map<K, V>)
      returns (visited: seq<(K, V)>, stopped: bool)
      requires Valid() && |bucket| == |chains| && b < |bucket|
      requires Sweeping(Table(bucket, entries), hash, chains, m, contents, visit, visited0, b, 0)
      modifies this
      ensures Valid() && |bucket| == |chains| == |old(bucket)|
      ensures SweepResult(m, contents, visit, visited)
      ensures !stopped ==> Sweeping(Table(bucket, entries), hash, chains, m, contents, visit, visited, b + 1, 0)
    {
      hide Shape, Holds, Home, Sweeping, SweepResult, Cut;
      visited, stopped := visited0, false;
      var e := bucket[b];
      ghost var j := 0;
      ChainStart(Table(bucket, entries), hash, chains, b);
      while e != 0
        invariant Valid() && |bucket| == |chains| == |old(bucket)|
        invariant 0 <= j <= |chains[b]| && e == (if j < |chains[b]| then chains[b][j] else 0)
                  && (e == 0 ==> j == |chains[b]|)
        invariant Sweeping(Table(bucket, entries), hash, chains, m, contents, visit, visited, b, j)
        decreases |chains[b]| - j
      {
        ChainStep(Table(bucket, entries), hash, chains, b, j);
        var next := entries[e].next;
        var pair := (entries[e].key, entries[e].value);
        var verdict := visit(pair.0, pair.1);
        j := Visit(visit, visited, b, j, m, pair);
        visited := visited + [pair];
        SweepSoFar(Table(bucket, entries), hash, chains, m, contents, visit, visited, b, j);
        if verdict.stop {
          stopped := true;
          return;
        }
        e := next;
      }
      SweepBucket(Table(bucket, entries), hash, chains, m, contents, visit, visited, b);
      SweepSoFar(Table(bucket, entries), hash, chains, m, contents, visit, visited, b, j);
    }

    /** The callback for one pair, which may delete it. */
    method Visit(visit: (K, V) -> Verdict, ghost visited: seq<(K, V)>, b: nat, ghost j: nat, ghost m: map<K, V>,
                 pair: (K, V))
      returns (ghost j': nat)
      requires Valid() && |bucket| == |chains| && b < |bucket| && j < |chains[b]|
      requires Sweeping(Table(bucket, entries), hash, chains, m, contents, visit, visited, b, j)
      requires chains[b][j] in entries && pair == (entries[chains[b][j]].key, entries[chains[b][j]].value)
      modifies this
      ensures Valid() && |bucket| == |chains| == |old(bucket)|
      ensures Sweeping(Table(bucket, entries), hash, chains, m, contents, visit, visited + [pair], b, j')
      ensures j' <= |chains[b]| && |chains[b]| - j' == |old(chains)[b]| - j - 1
      ensures j' < |chains[b]| ==> chains[b][j'] == old(chains)[b][j + 1]
    {
      hide Shape, Holds, Home, Sweeping, Cut;
      ghost var t := Table(bucket, entries);
      SweepStep(t, hash, chains, m, contents, visit, visited, b, j);
      if visit(pair.0, pair.1).delete {
        ghost var chains0, m1 := chains, contents;
        var _, k := Del(pair.0);
        SameSpot(t, hash, chains0, m1, b, j, k);
        SweepDelete(t, Table(bucket, entries), hash, chains0, m, m1, visit, visited, b, j);
        CutNext(chains0[b], j);
        BucketCount(Table(bucket, entries), hash, chains);
        j' := j;
      } else {
        SweepKeep(t, hash, chains, m, contents, visit, visited, b, j);
        j' := j + 1;
      }
    }
  }

  /** What a callback of For answers: whether it deleted the pair, and whether to stop. */
  datatype Verdict = Verdict(delete: bool, stop: bool)

  ghost predicate Visited<K, V>(visited: seq<(K, V)>, k: K) {
    exists i :: 0 <= i < |visited| && visited[i].0 == k
  }

  /** Everything Del needs to know of an unlinking. */
  lemma Removal<K, V>(t: Table<K, V>, hash: K -> nat, chains: seq<seq<nat>>, m: map<K, V>, b: nat, j: nat)
    requires Shape(t, hash, chains) && Holds(t.entries, m) && b < |chains| && j < |chains[b]|
    ensures var a := chains[b][j];
            && a in t.entries && (t.entries[a].front != 0 ==> t.entries[a].front in t.entries)
            && (t.entries[a].next != 0 ==> t.entries[a].next in t.entries)
            && var t' := Unlinked(t, b, a);
            && Shape(t', hash, chains[b := Cut(chains[b], j)]) && Holds(t'.entries, m - {t.entries[a].key})
            && (forall x :: x in t'.entries <==> x in t.entries && t.entries[x].key != t.entries[a].key)
            && (forall x :: x in t'.entries ==>
                              t'.entries[x].key == t.entries[x].key && t'.entries[x].value == t.entries[x].value)
            && |m - {t.entries[a].key}| == |m| - 1 && |t'.bucket| == |t.bucket|
  {
    hide Cut, Home, AtHome, Linked;
    assert Linked(t.entries, chains[b], t.bucket[b]);
    UnlinkedShape(t, hash, chains, b, j);
    UnlinkedKeys(t, b, chains[b], j);
    var a := chains[b][j];
    UnlinkedHolds(t.entries, Unlinked(t, b, a).entries, m, a);
    assert (m - {t.entries[a].key}).Keys == m.Keys - {t.entries[a].key};
    assert |(m - {t.entries[a].key}).Keys| == |m.Keys| - 1;
  }

  // ---- Traversal with deletion ----------------------------------------------------------------

  /**
   * Before place j of chain b: visited are the keys of the entries passed and of those deleted; m is what is left of
   * m0.
   */
  ghost predicate Sweeping<K, V>(t: Table<K, V>, hash: K -> nat, chains: seq<seq<nat>>, m0: map<K, V>, m: map<K, V>,
                                 visit: (K, V) -> Verdict, visited: seq<(K, V)>, b: nat, j: nat) {
    && |chains| > 0 && b <= |chains| && (b < |chains| ==> j <= |chains[b]|)
    && (forall i :: 0 <= i < |visited| ==> visited[i].0 in m0 && visited[i].1 == m0[visited[i].0])
    && (forall i, l :: 0 <= i < l < |visited| ==> visited[i].0 != visited[l].0)
    && Left(m0, m, visit, visited)
    && (forall a :: a in t.entries ==> (Visited(visited, t.entries[a].key) <==> Passed(t, hash, chains, a, b, j)))
  }

  ghost predicate Left<K, V>(m0: map<K, V>, m: map<K, V>, visit: (K, V) -> Verdict, visited: seq<(K, V)>) {
    && (forall k :: k in m ==> k in m0 && !(Visited(visited, k) && visit(k, m0[k]).delete))
    && (forall k :: k in m0 && !(Visited(visited, k) && visit(k, m0[k]).delete) ==> k in m)
    && (forall k :: k in m ==> m[k] == m0[k])
  }

  /** What a traversal has done so far, wherever it is. */
  ghost predicate SweepResult<K, V>(m0: map<K, V>, m: map<K, V>, visit: (K, V) -> Verdict, visited: seq<(K, V)>) {
    && (forall i :: 0 <= i < |visited| ==> visited[i].0 in m0 && visited[i].1 == m0[visited[i].0])
    && (forall i, l :: 0 <= i < l < |visited| ==> visited[i].0 != visited[l].0)
    && Left(m0, m, visit, visited)
  }

  lemma SweepSoFar<K, V>(t: Table<K, V>, hash: K -> nat, chains: seq<seq<nat>>, m0: map<K, V>, m: map<K, V>,
                         visit: (K, V) -> Verdict, visited: seq<(K, V)>, b: nat, j: nat)
    requires Sweeping(t, hash, chains, m0, m, visit, visited, b, j)
    ensures SweepResult(m0, m, visit, visited)
  {
    hide Passed, Visited, Left;
  }

  lemma VisitedNext<K, V>(visited: seq<(K, V)>, pair: (K, V))
    ensures forall k :: Visited(visited + [pair], k) <==> Visited(visited, k) || k == pair.0
  {
    var more := visited + [pair];
    forall k ensures Visited(more, k) <==> Visited(visited, k) || k == pair.0 {
      if Visited(visited, k) {
        var i :| 0 <= i < |visited| && visited[i].0 == k;
        assert more[i].0 == k;
      }
      assert more[|visited|].0 == pair.0;
    }
  }

  lemma SweepStart<K, V>(t: Table<K, V>, hash: K -> nat, chains: seq<seq<nat>>, m: map<K, V>, visit: (K, V) -> Verdict)
    requires |chains| > 0
    ensures Sweeping(t, hash, chains, m, m, visit, [], 0, 0)
  {
    hide Home;
  }

  /** The entry at place j has not been visited. */
  lemma SweepStep<K, V>(t: Table<K, V>, hash: K -> nat, chains: seq<seq<nat>>, m0: map<K, V>, m: map<K, V>,
                        visit: (K, V) -> Verdict, visited: seq<(K, V)>, b: nat, j: nat)
    requires Shape(t, hash, chains) && Holds(t.entries, m) && b < |chains| && j < |chains[b]|
    requires Sweeping(t, hash, chains, m0, m, visit, visited, b, j)
    ensures var e := chains[b][j];
            e in t.entries && !Visited(visited, t.entries[e].key) && t.entries[e].key in m && t.entries[e].key in m0
            && t.entries[e].value == m0[t.entries[e].key] && Home(hash, t.entries[e].key, |chains|) == b
  {
    hide Shape, Passed, Home;
    ChainStep(t, hash, chains, b, j);
    PassStep(t, hash, chains, b, j, chains[b][j]);
  }

  lemma SweepKeep<K, V>(t: Table<K, V>, hash: K -> nat, chains: seq<seq<nat>>, m0: map<K, V>, m: map<K, V>,
                        visit: (K, V) -> Verdict, visited: seq<(K, V)>, b: nat, j: nat)
    requires Shape(t, hash, chains) && Holds(t.entries, m) && b < |chains| && j < |chains[b]|
    requires Sweeping(t, hash, chains, m0, m, visit, visited, b, j)
    requires chains[b][j] in t.entries && !visit(t.entries[chains[b][j]].key, t.entries[chains[b][j]].value).delete
    ensures var e := t.entries[chains[b][j]];
            Sweeping(t, hash, chains, m0, m, visit, visited + [(e.key, e.value)], b, j + 1)
  {
    hide Shape, Passed, Home, Visited;
    SweepStep(t, hash, chains, m0, m, visit, visited, b, j);
    var e := t.entries[chains[b][j]];
    VisitedNext(visited, (e.key, e.value));
    NotYet(visited, e.key);
    forall a | a in t.entries
      ensures Visited(visited + [(e.key, e.value)], t.entries[a].key) <==> Passed(t, hash, chains, a, b, j + 1) {
      PassStep(t, hash, chains, b, j, a);
    }
  }

  lemma NotYet<K, V>(visited: seq<(K, V)>, k: K)
    requires !Visited(visited, k)
    ensures forall i :: 0 <= i < |visited| ==> visited[i].0 != k
  {
  }

  lemma SweepDelete<K, V>(t: Table<K, V>, t': Table<K, V>, hash: K -> nat, chains: seq<seq<nat>>, m0: map<K, V>,
                          m: map<K, V>,
                          visit: (K, V) -> Verdict, visited: seq<(K, V)>, b: nat, j: nat)
    requires Shape(t, hash, chains) && Holds(t.entries, m) && b < |chains| && j < |chains[b]|
    requires Sweeping(t, hash, chains, m0, m, visit, visited, b, j)
    requires chains[b][j] in t.entries && visit(t.entries[chains[b][j]].key, t.entries[chains[b][j]].value).delete
    requires forall x :: x in t'.entries <==> x in t.entries && t.entries[x].key != t.entries[chains[b][j]].key
    requires forall x :: x in t'.entries ==> t'.entries[x].key == t.entries[x].key
    ensures var e := t.entries[chains[b][j]];
            Sweeping(t', hash, chains[b := Cut(chains[b], j)], m0, m - {e.key}, visit, visited + [(e.key, e.value)], b,
                     j)
  {
    hide Shape, Home, Visited;
    SweepStep(t, hash, chains, m0, m, visit, visited, b, j);
    var e := t.entries[chains[b][j]];
    VisitedNext(visited, (e.key, e.value));
    NotYet(visited, e.key);
    var chains' := chains[b := Cut(chains[b], j)];
    assert Cut(chains[b], j)[..j] == chains[b][..j];
    forall a | a in t'.entries ensures Passed(t', hash, chains', a, b, j) == Passed(t, hash, chains, a, b, j) {
    }
  }

  lemma SweepBucket<K, V>(t: Table<K, V>, hash: K -> nat, chains: seq<seq<nat>>, m0: map<K, V>, m: map<K, V>,
                          visit: (K, V) -> Verdict, visited: seq<(K, V)>, b: nat)
    requires Shape(t, hash, chains) && b < |chains| && Sweeping(t, hash, chains, m0, m, visit, visited, b, |chains[b]|)
    ensures Sweeping(t, hash, chains, m0, m, visit, visited, b + 1, 0)
  {
    hide Home, Visited;
    assert chains[b][..|chains[b]|] == chains[b];
    if b + 1 < |chains| { assert chains[b + 1][..0] == []; }
    forall a | a in t.entries
      ensures Passed(t, hash, chains, a, b, |chains[b]|) == Passed(t, hash, chains, a, b + 1, 0) {
      assert a in chains[Home(hash, t.entries[a].key, |chains|)];
    }
  }

  lemma SweepAll<K, V>(t: Table<K, V>, hash: K -> nat, chains: seq<seq<nat>>, m0: map<K, V>, m: map<K, V>,
                       visit: (K, V) -> Verdict, visited: seq<(K, V)>)
    requires |chains| > 0 && Holds(t.entries, m) && Sweeping(t, hash, chains, m0, m, visit, visited, |chains|, 0)
    ensures forall k :: k in m0 ==> Visited(visited, k)
    ensures SweepResult(m0, m, visit, visited)
  {
    hide Home, Visited;
    forall k | k in m0 ensures Visited(visited, k) {
      if k in m {
        assert HasKey(t.entries, k);
        var a :| a in t.entries && t.entries[a].key == k;
        assert Passed(t, hash, chains, a, |chains|, 0);
      }
    }
  }

  /** A key has one place. */
  lemma SameSpot<K, V>(t: Table<K, V>, hash: K -> nat, chains: seq<seq<nat>>, m: map<K, V>, b: nat, j: nat, k: nat)
    requires Shape(t, hash, chains) && Holds(t.entries, m) && b < |chains| && j < |chains[b]| && k < |chains[b]|
    requires chains[b][j] in t.entries && chains[b][k] in t.entries
             && t.entries[chains[b][j]].key == t.entries[chains[b][k]].key
    ensures j == k
  {
    hide Home;
    assert Linked(t.entries, chains[b], t.bucket[b]);
  }

  /** Once the entry at place j is gone, its successor is there. */
  lemma CutNext(chain: seq<nat>, j: nat)
    requires j < |chain|
    ensures |Cut(chain, j)| == |chain| - 1
    ensures j < |Cut(chain, j)| ==> Cut(chain, j)[j] == chain[j + 1]
  {
  }
}
