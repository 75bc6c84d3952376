/** Chained hash buckets in memory: doubly linked entries, one chain per bucket. */
module Chains {
  import opened Sequences

  datatype Entry<K, V> = Entry(key: K, value: V, front: nat, next: nat)

  /** Bucket heads, and the entries by address; 0 is nil. */
  datatype Table<K, V> = Table(bucket: seq<nat>, entries: map<nat, Entry<K, V>>)

  // ---- Shape ----------------------------------------------------------------------------------

  predicate Link<K, V>(entries: map<nat, Entry<K, V>>, chain: seq<nat>, j: nat)
    requires j < |chain|
  {
    && chain[j] in entries && chain[j] != 0
    && entries[chain[j]].next == (if j + 1 < |chain| then chain[j + 1] else 0)
    && entries[chain[j]].front == (if j > 0 then chain[j - 1] else 0)
  }

  /** The entries from head on are those of chain. */
  predicate Linked<K, V>(entries: map<nat, Entry<K, V>>, chain: seq<nat>, head: nat) {
    && head == (if chain == [] then 0 else chain[0]) && Distinct(chain)
    && forall j :: 0 <= j < |chain| ==> Link(entries, chain, j)
  }

  function Home<K>(hash: K -> nat, key: K, n: nat): (b: nat)
    requires n > 0
    ensures b < n
  {
    hash(key) % n
  }

  /** Everything on chain b belongs in bucket b. */
  predicate AtHome<K, V>(entries: map<nat, Entry<K, V>>, hash: K -> nat, chain: seq<nat>, b: nat, n: nat)
    requires n > 0
  {
    forall a :: a in chain ==> a in entries && Home(hash, entries[a].key, n) == b
  }

  predicate Shape<K, V>(t: Table<K, V>, hash: K -> nat, chains: seq<seq<nat>>) {
    && |t.bucket| > 0 && |chains| == |t.bucket|
    && (forall b :: 0 <= b < |chains| ==> Linked(t.entries, chains[b], t.bucket[b]))
    && (forall b :: 0 <= b < |chains| ==> AtHome(t.entries, hash, chains[b], b, |chains|))
    && (forall a :: a in t.entries ==> a in chains[Home(hash, t.entries[a].key, |chains|)])
  }

  /** The entries are the pairs of m, one entry a key. */
  ghost predicate Holds<K, V>(entries: map<nat, Entry<K, V>>, m: map<K, V>) {
    && (forall a :: a in entries ==> entries[a].key in m && entries[a].value == m[entries[a].key])
    && (forall k :: k in m ==> HasKey(entries, k))
    && (forall a, c :: a in entries && c in entries && entries[a].key == entries[c].key ==> a == c)
  }

  ghost predicate HasKey<K, V>(entries: map<nat, Entry<K, V>>, k: K) {
    exists a :: a in entries && entries[a].key == k
  }

  // ---- A new entry ----------------------------------------------------------------------------

  /** Entry a linked behind the last of its chain, or made the head of an empty one. */
  function Appended<K, V>(t: Table<K, V>, chain: seq<nat>, b: nat, a: nat, key: K, value: V): Table<K, V>
    requires b < |t.bucket| && (chain != [] ==> chain[|chain| - 1] in t.entries)
  {
    if chain == [] then
      Table(t.bucket[b := a], t.entries[a := Entry(key, value, 0, 0)])
    else
      var last := chain[|chain| - 1];
      Table(t.bucket, t.entries[a := Entry(key, value, last, 0)][last := t.entries[last].(next := a)])
  }

  lemma AppendedLinked<K, V>(t: Table<K, V>, chain: seq<nat>, b: nat, a: nat, key: K, value: V)
    requires b < |t.bucket| && Linked(t.entries, chain, t.bucket[b]) && a !in t.entries && a != 0
    ensures chain != [] ==> chain[|chain| - 1] in t.entries
    ensures Linked(Appended(t, chain, b, a, key, value).entries, chain + [a],
                   Appended(t, chain, b, a, key, value).bucket[b])
  {
    if chain != [] { assert Link(t.entries, chain, |chain| - 1); }
    var t', c := Appended(t, chain, b, a, key, value), chain + [a];
    forall j | 0 <= j < |c| ensures Link(t'.entries, c, j) {
      if j < |chain| { assert Link(t.entries, chain, j); }
    }
    forall j | 0 <= j < |chain| ensures chain[j] != a { assert Link(t.entries, chain, j); }
  }

  /** Changing entries that are not on a chain leaves the chain alone. */
  lemma OtherLinked<K, V>(entries: map<nat, Entry<K, V>>, entries': map<nat, Entry<K, V>>, chain: seq<nat>, head: nat)
    requires Linked(entries, chain, head)
    requires forall a :: a in chain ==> a in entries' && a in entries && entries'[a] == entries[a]
    ensures Linked(entries', chain, head)
  {
    forall j | 0 <= j < |chain| ensures Link(entries', chain, j) {
      assert Link(entries, chain, j);
      assert chain[j] in chain;
    }
  }

  /** No address is on two chains. */
  lemma ChainsApart<K, V>(t: Table<K, V>, hash: K -> nat, chains: seq<seq<nat>>, a: nat, b: nat, c: nat)
    requires Shape(t, hash, chains) && b < |chains| && c < |chains| && a in chains[b] && a in chains[c]
    ensures b == c
  {
    assert AtHome(t.entries, hash, chains[b], b, |chains|) && AtHome(t.entries, hash, chains[c], c, |chains|);
  }

  lemma AppendedShape<K, V>(t: Table<K, V>, hash: K -> nat, chains: seq<seq<nat>>, a: nat, key: K, value: V)
    requires Shape(t, hash, chains) && a !in t.entries && a != 0
    ensures var b := Home(hash, key, |chains|);
            && (chains[b] != [] ==> chains[b][|chains[b]| - 1] in t.entries)
            && Shape(Appended(t, chains[b], b, a, key, value), hash, chains[b := chains[b] + [a]])
  {
    hide Home, Linked, AtHome, Appended;
    var n := |chains|;
    var b := Home(hash, key, n);
    assert Linked(t.entries, chains[b], t.bucket[b]);
    AppendedLinked(t, chains[b], b, a, key, value);
    AppendedKeys(t, chains[b], b, a, key, value);
    var t', chains' := Appended(t, chains[b], b, a, key, value), chains[b := chains[b] + [a]];
    forall c | 0 <= c < n
      ensures Linked(t'.entries, chains'[c], t'.bucket[c]) && AtHome(t'.entries, hash, chains'[c], c, n) {
      if c != b { AppendedOther(t, hash, chains, a, key, value, c); }
      assert AtHome(t.entries, hash, chains[c], c, n);
      StillHome(t.entries, t'.entries, hash, chains[c], c, n);
      if c == b { HomeNext(t'.entries, hash, chains[b], a, b, n); }
    }
    forall x | x in t'.entries ensures x in chains'[Home(hash, t'.entries[x].key, n)] {
      if x != a { assert x in chains[Home(hash, t.entries[x].key, n)]; }
    }
  }

  lemma AppendedOther<K, V>(t: Table<K, V>, hash: K -> nat, chains: seq<seq<nat>>, a: nat, key: K, value: V, c: nat)
    requires Shape(t, hash, chains) && a !in t.entries && c < |chains| && c != Home(hash, key, |chains|)
    ensures var b := Home(hash, key, |chains|);
            && (chains[b] != [] ==> chains[b][|chains[b]| - 1] in t.entries)
            && var t' := Appended(t, chains[b], b, a, key, value);
               Linked(t'.entries, chains[c], t'.bucket[c])
  {
    hide Home, Linked;
    var b := Home(hash, key, |chains|);
    assert AtHome(t.entries, hash, chains[b], b, |chains|) && AtHome(t.entries, hash, chains[c], c, |chains|);
    var t' := Appended(t, chains[b], b, a, key, value);
    forall x | x in chains[c] ensures x in t'.entries && t'.entries[x] == t.entries[x] {
      if chains[b] != [] && x == chains[b][|chains[b]| - 1] { ChainsApart(t, hash, chains, x, b, c); }
    }
    assert Linked(t.entries, chains[c], t.bucket[c]);
    OtherLinked(t.entries, t'.entries, chains[c], t.bucket[c]);
  }

  lemma StillHome<K, V>(entries: map<nat, Entry<K, V>>, entries': map<nat, Entry<K, V>>, hash: K -> nat,
                        chain: seq<nat>, b: nat, n: nat)
    requires n > 0 && AtHome(entries, hash, chain, b, n)
    requires forall x :: x in chain && x in entries ==> x in entries' && entries'[x].key == entries[x].key
    ensures AtHome(entries', hash, chain, b, n)
  {
    hide Home;
  }

  lemma HomeNext<K, V>(entries: map<nat, Entry<K, V>>, hash: K -> nat, chain: seq<nat>, a: nat, b: nat, n: nat)
    requires n > 0 && AtHome(entries, hash, chain, b, n) && a in entries && Home(hash, entries[a].key, n) == b
    ensures AtHome(entries, hash, chain + [a], b, n)
  {
    hide Home;
  }

  /** Linking changes no key and no value. */
  lemma AppendedKeys<K, V>(t: Table<K, V>, chain: seq<nat>, b: nat, a: nat, key: K, value: V)
    requires b < |t.bucket| && (chain != [] ==> chain[|chain| - 1] in t.entries) && a !in t.entries
    ensures var e' := Appended(t, chain, b, a, key, value).entries;
            && |Appended(t, chain, b, a, key, value).bucket| == |t.bucket|
            && e'.Keys == t.entries.Keys + {a} && e'[a].key == key && e'[a].value == value
            && forall x :: x in t.entries ==> e'[x].key == t.entries[x].key && e'[x].value == t.entries[x].value
  {
  }

  lemma AppendedHolds<K, V>(t: Table<K, V>, m: map<K, V>, chain: seq<nat>, b: nat, a: nat, key: K, value: V)
    requires b < |t.bucket| && (chain != [] ==> chain[|chain| - 1] in t.entries) && a !in t.entries
    requires Holds(t.entries, m) && key !in m
    ensures Holds(Appended(t, chain, b, a, key, value).entries, m[key := value])
  {
    hide Appended;
    AppendedKeys(t, chain, b, a, key, value);
    var e', m' := Appended(t, chain, b, a, key, value).entries, m[key := value];
    forall k | k in m' ensures HasKey(e', k) {
      if k == key {
        assert e'[a].key == k;
      } else {
        assert HasKey(t.entries, k);
        var x :| x in t.entries && t.entries[x].key == k;
        assert e'[x].key == k;
      }
    }
  }

  // ---- Removing an entry ----------------------------------------------------------------------

  /** Entry j of chain b unlinked and freed. */
  function Unlinked<K, V>(t: Table<K, V>, b: nat, a: nat): Table<K, V>
    requires b < |t.bucket| && a in t.entries
    requires t.entries[a].front != 0 ==> t.entries[a].front in t.entries
    requires t.entries[a].next != 0 ==> t.entries[a].next in t.entries
  {
    var front, next := t.entries[a].front, t.entries[a].next;
    var e1 := if front != 0 then t.entries[front := t.entries[front].(next := next)] else t.entries;
    var e2 := if next != 0 then e1[next := e1[next].(front := front)] else e1;
    Table(if front != 0 then t.bucket else t.bucket[b := next], e2 - {a})
  }

  function Cut(chain: seq<nat>, j: nat): seq<nat>
    requires j < |chain|
  {
    chain[..j] + chain[j + 1..]
  }

  lemma CutAt(chain: seq<nat>, j: nat)
    requires j < |chain| && Distinct(chain)
    ensures |Cut(chain, j)| == |chain| - 1
    ensures forall i :: 0 <= i < |chain| - 1 ==> Cut(chain, j)[i] == chain[if i < j then i else i + 1]
    ensures Distinct(Cut(chain, j))
    ensures forall a :: a in Cut(chain, j) <==> a in chain && a != chain[j]
  {
    var c := Cut(chain, j);
    forall a | a in chain && a != chain[j] ensures a in c {
      var i :| 0 <= i < |chain| && chain[i] == a;
      assert c[if i < j then i else i - 1] == a;
    }
  }

  /** The entries an unlinking touches are the neighbours, and they have the keys they had. */
  lemma UnlinkedKeys<K, V>(t: Table<K, V>, b: nat, chain: seq<nat>, j: nat)
    requires b < |t.bucket| && Linked(t.entries, chain, t.bucket[b]) && j < |chain|
    ensures var a := chain[j];
            && a in t.entries && (t.entries[a].front != 0 ==> t.entries[a].front in t.entries)
            && (t.entries[a].next != 0 ==> t.entries[a].next in t.entries)
            && var e' := Unlinked(t, b, a).entries;
            && e'.Keys == t.entries.Keys - {a}
            && (forall x :: x in e' ==> e'[x].key == t.entries[x].key && e'[x].value == t.entries[x].value)
            && (forall x :: x in e' && x !in chain ==> e'[x] == t.entries[x])
  {
    assert Link(t.entries, chain, j);
    if j > 0 { assert Link(t.entries, chain, j - 1); }
    if j + 1 < |chain| { assert Link(t.entries, chain, j + 1); }
  }

  lemma UnlinkedLinked<K, V>(t: Table<K, V>, b: nat, chain: seq<nat>, j: nat)
    requires b < |t.bucket| && Linked(t.entries, chain, t.bucket[b]) && j < |chain|
    ensures var a := chain[j];
            && a in t.entries && (t.entries[a].front != 0 ==> t.entries[a].front in t.entries)
            && (t.entries[a].next != 0 ==> t.entries[a].next in t.entries)
            && Linked(Unlinked(t, b, a).entries, Cut(chain, j), Unlinked(t, b, a).bucket[b])
  {
    hide Cut;
    var a, c := chain[j], Cut(chain, j);
    CutAt(chain, j);
    assert Link(t.entries, chain, j);
    if j > 0 { assert Link(t.entries, chain, j - 1); }
    if j + 1 < |chain| { assert Link(t.entries, chain, j + 1); }
    var t' := Unlinked(t, b, a);
    forall i | 0 <= i < |c| ensures Link(t'.entries, c, i) {
      var i' := if i < j then i else i + 1;
      assert Link(t.entries, chain, i');
    }
  }

  lemma UnlinkedShape<K, V>(t: Table<K, V>, hash: K -> nat, chains: seq<seq<nat>>, b: nat, j: nat)
    requires Shape(t, hash, chains) && b < |chains| && j < |chains[b]|
    ensures var a := chains[b][j];
            && a in t.entries && (t.entries[a].front != 0 ==> t.entries[a].front in t.entries)
            && (t.entries[a].next != 0 ==> t.entries[a].next in t.entries)
            && Shape(Unlinked(t, b, a), hash, chains[b := Cut(chains[b], j)])
  {
    hide Home, Linked, AtHome, Unlinked, Cut;
    var n, a := |chains|, chains[b][j];
    assert Linked(t.entries, chains[b], t.bucket[b]) && AtHome(t.entries, hash, chains[b], b, n);
    UnlinkedLinked(t, b, chains[b], j);
    UnlinkedKeys(t, b, chains[b], j);
    UnlinkedBuckets(t, b, a);
    ChainMembers(t.entries, chains[b], t.bucket[b], j);
    var t', chains' := Unlinked(t, b, a), chains[b := Cut(chains[b], j)];
    forall c | 0 <= c < n
      ensures Linked(t'.entries, chains'[c], t'.bucket[c]) && AtHome(t'.entries, hash, chains'[c], c, n) {
      assert Linked(t.entries, chains[c], t.bucket[c]) && AtHome(t.entries, hash, chains[c], c, n);
      if c != b {
        HomeEntries(t.entries, hash, chains[c], c, n);
        forall x | x in chains[c] ensures x !in chains[b] {
          if x in chains[b] { ChainsApart(t, hash, chains, x, b, c); }
        }
        OtherLinked(t.entries, t'.entries, chains[c], t.bucket[c]);
        StillHome(t.entries, t'.entries, hash, chains[c], c, n);
      } else {
        HomeCut(t.entries, t'.entries, hash, chains[b], j, b, n);
      }
    }
    forall x | x in t'.entries ensures x in chains'[Home(hash, t'.entries[x].key, n)] {
      assert x in chains[Home(hash, t.entries[x].key, n)];
    }
  }

  lemma UnlinkedBuckets<K, V>(t: Table<K, V>, b: nat, a: nat)
    requires b < |t.bucket| && a in t.entries
    requires t.entries[a].front != 0 ==> t.entries[a].front in t.entries
    requires t.entries[a].next != 0 ==> t.entries[a].next in t.entries
    ensures |Unlinked(t, b, a).bucket| == |t.bucket| && forall c :: 0 <= c < |t.bucket| && c != b ==>
                                                                      Unlinked(t, b, a).bucket[c] == t.bucket[c]
  {
  }

  lemma ChainMembers<K, V>(entries: map<nat, Entry<K, V>>, chain: seq<nat>, head: nat, j: nat)
    requires Linked(entries, chain, head) && j < |chain|
    ensures forall a :: a in Cut(chain, j) <==> a in chain && a != chain[j]
  {
    CutAt(chain, j);
  }

  lemma HomeEntries<K, V>(entries: map<nat, Entry<K, V>>, hash: K -> nat, chain: seq<nat>, b: nat, n: nat)
    requires n > 0 && AtHome(entries, hash, chain, b, n)
    ensures forall a :: a in chain ==> a in entries
  {
  }

  lemma HomeCut<K, V>(entries: map<nat, Entry<K, V>>, entries': map<nat, Entry<K, V>>, hash: K -> nat, chain: seq<nat>,
                      j: nat, b: nat, n: nat)
    requires n > 0 && AtHome(entries, hash, chain, b, n) && j < |chain|
    requires entries'.Keys == entries.Keys - {chain[j]}
    requires forall x :: x in entries' ==> entries'[x].key == entries[x].key
    requires forall a :: a in Cut(chain, j) <==> a in chain && a != chain[j]
    ensures AtHome(entries', hash, Cut(chain, j), b, n)
  {
    hide Home, Cut;
  }

  lemma UnlinkedHolds<K, V>(entries: map<nat, Entry<K, V>>, entries': map<nat, Entry<K, V>>, m: map<K, V>, a: nat)
    requires Holds(entries, m) && a in entries && entries'.Keys == entries.Keys - {a}
    requires forall x :: x in entries' ==> entries'[x].key == entries[x].key && entries'[x].value == entries[x].value
    ensures Holds(entries', m - {entries[a].key})
  {
    var m' := m - {entries[a].key};
    forall k | k in m' ensures HasKey(entries', k) {
      assert HasKey(entries, k);
      var x :| x in entries && entries[x].key == k;
      assert entries'[x].key == k;
    }
  }

  // ---- Overwriting a value --------------------------------------------------------------------

  lemma OverwrittenShape<K, V>(t: Table<K, V>, hash: K -> nat, chains: seq<seq<nat>>, a: nat, value: V)
    requires Shape(t, hash, chains) && a in t.entries
    ensures Shape(t.(entries := t.entries[a := t.entries[a].(value := value)]), hash, chains)
  {
    hide Home;
    var e' := t.entries[a := t.entries[a].(value := value)];
    forall b | 0 <= b < |chains|
      ensures Linked(e', chains[b], t.bucket[b]) && AtHome(e', hash, chains[b], b, |chains|) {
      assert Linked(t.entries, chains[b], t.bucket[b]) && AtHome(t.entries, hash, chains[b], b, |chains|);
      forall j | 0 <= j < |chains[b]| ensures Link(e', chains[b], j) { assert Link(t.entries, chains[b], j); }
    }
  }

  lemma OverwrittenHolds<K, V>(entries: map<nat, Entry<K, V>>, m: map<K, V>, a: nat, value: V)
    requires Holds(entries, m) && a in entries
    ensures Holds(entries[a := entries[a].(value := value)], m[entries[a].key := value])
  {
    var e', m' := entries[a := entries[a].(value := value)], m[entries[a].key := value];
    forall k | k in m' ensures HasKey(e', k) {
      if k == entries[a].key {
        assert e'[a].key == k;
      } else {
        assert HasKey(entries, k);
        var x :| x in entries && entries[x].key == k;
        assert e'[x].key == k;
      }
    }
  }
}
