/** The heap of segments that arrived out of order, ordered by wrapping sequence numbers. */
module KcpHeap {
  import opened Words
  import opened Kcp

  datatype Item = Item(sn: u32, fragment: Fragment)

  /** How far sn lies beyond base. */
  function Rank(sn: u32, base: u32): u32 {
    Wrap32(sn - base)
  }

  /** All numbers lie in the half circle that starts at base. */
  predicate InRange(s: seq<Item>, base: u32) {
    forall i :: 0 <= i < |s| ==> Rank(s[i].sn, base) < HALF32
  }

  /** The signed comparison of the heap is the order of distances from base. */
  lemma LessIsRank(a: u32, b: u32, base: u32)
    requires Rank(a, base) < HALF32 && Rank(b, base) < HALF32
    ensures Diff32(a, b) == Rank(a, base) - Rank(b, base)
    ensures Rank(a, base) == Rank(b, base) <==> a == b
  {
    hide Wrap32, Diff32;
    BackFromRank(a, base);
    BackFromRank(b, base);
    DiffOfWraps(base + Rank(a, base), base + Rank(b, base));
  }

  lemma BackFromRank(a: u32, base: u32)
    ensures Wrap32(base + Rank(a, base)) == a
  {
    hide Wrap32;
    WrapNear(a - base);
    if a >= base { WrapNear(a); } else { WrapUnique(base + Rank(a, base), 1, a); }
  }

  // ---- The heap as a sequence -----------------------------------------------------------------

  function Parent(i: nat): nat
    requires i > 0
  {
    (i - 1) / 2
  }

  /** No child is less than its parent. */
  predicate Ordered(s: seq<Item>) {
    forall i :: 0 < i < |s| ==> Diff32(s[i].sn, s[Parent(i)].sn) >= 0
  }

  /** Ordered, but for index and its parent. */
  predicate OrderedUp(s: seq<Item>, index: nat) {
    && (forall i :: 0 < i < |s| && i != index ==> Diff32(s[i].sn, s[Parent(i)].sn) >= 0)
    && (forall i :: 0 < i < |s| && Parent(i) == index && 0 < index < |s| ==> Diff32(s[i].sn, s[Parent(index)].sn) >= 0)
  }

  /** Ordered, but for index and its children. */
  predicate OrderedDown(s: seq<Item>, index: nat) {
    && (forall i :: 0 < i < |s| && Parent(i) != index ==> Diff32(s[i].sn, s[Parent(i)].sn) >= 0)
    && (forall i :: 0 < i < |s| && Parent(i) == index && 0 < index < |s| ==> Diff32(s[i].sn, s[Parent(index)].sn) >= 0)
  }

  /** s holds the entries of m, each once. */
  predicate Represents(s: seq<Item>, m: map<u32, Fragment>) {
    && (forall i :: 0 <= i < |s| ==> s[i].sn in m && m[s[i].sn] == s[i].fragment)
    && (forall i, j :: 0 <= i < j < |s| ==> s[i].sn != s[j].sn)
    && (forall sn :: sn in m ==> exists i :: 0 <= i < |s| && s[i].sn == sn)
  }

  function Swapped(s: seq<Item>, i: nat, j: nat): (r: seq<Item>)
    requires i < |s| && j < |s|
    ensures |r| == |s|
  {
    s[i := s[j]][j := s[i]]
  }

  lemma SwapRepresents(s: seq<Item>, m: map<u32, Fragment>, a: nat, b: nat)
    requires a < |s| && b < |s| && Represents(s, m)
    ensures Represents(Swapped(s, a, b), m)
  {
    hide Swapped;
    var r := Swapped(s, a, b);
    SwappedAt(s, a, b);
    forall i, j | 0 <= i < j < |r| ensures r[i].sn != r[j].sn {
      assert s[Place(i, a, b)].sn != s[Place(j, a, b)].sn;
    }
    forall sn | sn in m ensures exists i :: 0 <= i < |r| && r[i].sn == sn {
      var i :| 0 <= i < |s| && s[i].sn == sn;
      assert r[Place(i, a, b)].sn == sn;
    }
  }

  function Place(i: nat, a: nat, b: nat): nat {
    if i == a then b else if i == b then a else i
  }

  lemma SwappedAt(s: seq<Item>, a: nat, b: nat)
    requires a < |s| && b < |s|
    ensures forall i :: 0 <= i < |s| ==> Swapped(s, a, b)[i] == s[Place(i, a, b)]
  {
  }

  lemma SwapInRange(s: seq<Item>, base: u32, a: nat, b: nat)
    requires a < |s| && b < |s| && InRange(s, base)
    ensures InRange(Swapped(s, a, b), base)
  {
  }

  /** In range, what is not less than its parent in a half circle is so by rank. */
  lemma Compare(s: seq<Item>, base: u32, i: nat, j: nat)
    requires i < |s| && j < |s| && InRange(s, base)
    ensures Diff32(s[i].sn, s[j].sn) == Rank(s[i].sn, base) - Rank(s[j].sn, base)
  {
    hide Wrap32, Diff32;
    LessIsRank(s[i].sn, s[j].sn, base);
  }

  /** One step up. */
  lemma UpStep(s: seq<Item>, base: u32, index: nat)
    requires InRange(s, base) && 0 < index < |s| && OrderedUp(s, index)
    requires Diff32(s[Parent(index)].sn, s[index].sn) > 0
    ensures OrderedUp(Swapped(s, index, Parent(index)), Parent(index))
  {
    hide Wrap32, Diff32, Rank;
    var p := Parent(index);
    var r := Swapped(s, index, p);
    forall i: nat, j: nat | i < |s| && j < |s|
      ensures Diff32(r[i].sn, r[j].sn) == Rank(r[i].sn, base) - Rank(r[j].sn, base) {
      SwapInRange(s, base, index, p);
      Compare(r, base, i, j);
    }
    forall i: nat, j: nat | i < |s| && j < |s|
      ensures Diff32(s[i].sn, s[j].sn) == Rank(s[i].sn, base) - Rank(s[j].sn, base) {
      Compare(s, base, i, j);
    }
    forall i | 0 < i < |r| && i != p ensures Diff32(r[i].sn, r[Parent(i)].sn) >= 0 {
      assert Diff32(s[index].sn, s[p].sn) < 0;
      if i != index { assert Diff32(s[i].sn, s[Parent(i)].sn) >= 0; }
    }
    forall i | 0 < i < |r| && Parent(i) == p && 0 < p ensures Diff32(r[i].sn, r[Parent(p)].sn) >= 0 {
      assert Diff32(s[p].sn, s[Parent(p)].sn) >= 0;
      if i != index { assert Diff32(s[i].sn, s[p].sn) >= 0; }
    }
  }

  /** One step down. */
  lemma DownStep(s: seq<Item>, base: u32, index: nat, child: nat)
    requires InRange(s, base) && 0 < child < |s| && Parent(child) == index && OrderedDown(s, index)
    requires forall i :: 0 < i < |s| && Parent(i) == index ==> Diff32(s[i].sn, s[child].sn) >= 0
    requires Diff32(s[index].sn, s[child].sn) > 0
    ensures OrderedDown(Swapped(s, index, child), child)
  {
    hide Wrap32, Diff32, Rank;
    var r := Swapped(s, index, child);
    forall i: nat, j: nat | i < |s| && j < |s|
      ensures Diff32(r[i].sn, r[j].sn) == Rank(r[i].sn, base) - Rank(r[j].sn, base) {
      SwapInRange(s, base, index, child);
      Compare(r, base, i, j);
    }
    forall i: nat, j: nat | i < |s| && j < |s|
      ensures Diff32(s[i].sn, s[j].sn) == Rank(s[i].sn, base) - Rank(s[j].sn, base) {
      Compare(s, base, i, j);
    }
    forall i | 0 < i < |r| && Parent(i) != child ensures Diff32(r[i].sn, r[Parent(i)].sn) >= 0 {
      if i == index { assert Diff32(s[child].sn, s[Parent(index)].sn) >= 0; }
      else if i != child && Parent(i) == index { assert Diff32(s[i].sn, s[child].sn) >= 0; }
      else if i != child { assert Diff32(s[i].sn, s[Parent(i)].sn) >= 0; }
    }
    forall i | 0 < i < |r| && Parent(i) == child ensures Diff32(r[i].sn, r[Parent(child)].sn) >= 0 {
      assert Diff32(s[i].sn, s[child].sn) >= 0;
    }
  }

  /** The root is the least. */
  lemma {:induction false} RootLeast(s: seq<Item>, base: u32, i: nat)
    requires Ordered(s) && InRange(s, base) && i < |s|
    ensures Rank(s[0].sn, base) <= Rank(s[i].sn, base)
  {
    hide Wrap32, Diff32, Rank;
    if i > 0 {
      RootLeast(s, base, Parent(i));
      Compare(s, base, i, Parent(i));
    }
  }

  // ---- The heap as an object ------------------------------------------------------------------

  class SegmentHeap {
    var segments: seq<Item>
    var marks: set<u32>
    ghost var contents: map<u32, Fragment>

    ghost predicate Valid()
      reads this
    {
      Ordered(segments) && Represents(segments, contents) && marks == contents.Keys
    }

    constructor ()
      ensures Valid() && contents == map[]
    {
      segments, marks, contents := [], {}, map[];
    }

    predicate Has(sn: u32)
      reads this
    {
      sn in marks
    }

    method Push(item: Item, ghost base: u32)
      requires Valid() && item.sn !in contents
      requires InRange(segments + [item], base)
      modifies this
      ensures Valid() && contents == old(contents)[item.sn := item.fragment]
    {
      hide Wrap32, Diff32, Rank;
      PushRepresents(segments, contents, item);
      PushOrdered(segments, item);
      segments := segments + [item];
      marks := marks + {item.sn};
      contents := contents[item.sn := item.fragment];
      var index := |segments| - 1;
      while index > 0
        invariant 0 <= index < |segments|
        invariant Represents(segments, contents) && InRange(segments, base) && OrderedUp(segments, index)
        invariant marks == contents.Keys && contents == old(contents)[item.sn := item.fragment]
      {
        var parent := Parent(index);
        if !(Diff32(segments[parent].sn, segments[index].sn) > 0) {
          UpDone(segments, base, index);
          return;
        }
        SwapRepresents(segments, contents, index, parent);
        SwapInRange(segments, base, index, parent);
        UpStep(segments, base, index);
        segments := Swapped(segments, index, parent);
        index := parent;
      }
    }

    /** Removes and returns the segment nearest to base. */
    method Pop(ghost base: u32) returns (item: Item, ok: bool)
      requires Valid() && InRange(segments, base)
      modifies this
      ensures Valid()
      ensures ok == (old(segments) != [])
      ensures !ok ==> contents == old(contents)
      ensures ok ==> item.sn in old(contents) && item.fragment == old(contents)[item.sn]
                     && contents == old(contents) - {item.sn}
      ensures ok ==> forall sn :: sn in old(contents) ==> Rank(item.sn, base) <= Rank(sn, base)
    {
      hide Wrap32, Diff32, Rank, Represents, InRange, Ordered, OrderedDown;
      if |segments| == 0 {
        return Item(0, Fragment(0, [])), false;
      }
      item, ok := segments[0], true;
      RootOfAll(segments, contents, base);
      var last := |segments| - 1;
      var tail := segments[last];
      TailMoved(segments, contents, base);
      segments := segments[..last];
      marks := marks - {item.sn};
      contents := contents - {item.sn};
      if last > 0 {
        segments := segments[0 := tail];
        SiftDown(base);
      }
    }

    method SiftDown(ghost base: u32)
      requires segments != [] && Represents(segments, contents) && InRange(segments, base) && OrderedDown(segments, 0)
      modifies this`segments
      ensures Represents(segments, contents) && Ordered(segments)
    {
      hide Wrap32, Diff32, Rank, Represents, InRange;
      var index := 0;
      while index * 2 + 1 < |segments|
        invariant 0 <= index < |segments|
        invariant Represents(segments, contents) && InRange(segments, base) && OrderedDown(segments, index)
        decreases |segments| - index
      {
        var left := index * 2 + 1;
        var right := left + 1;
        var smallest := left;
        if right < |segments| && Diff32(segments[left].sn, segments[right].sn) > 0 {
          smallest := right;
        }
        SmallestChild(segments, base, index, smallest);
        if !(Diff32(segments[index].sn, segments[smallest].sn) > 0) {
          DownDone(segments, base, index, smallest);
          return;
        }
        SwapRepresents(segments, contents, index, smallest);
        SwapInRange(segments, base, index, smallest);
        DownStep(segments, base, index, smallest);
        segments := Swapped(segments, index, smallest);
        index := smallest;
      }
    }
  }

  lemma PushRepresents(s: seq<Item>, m: map<u32, Fragment>, item: Item)
    requires Represents(s, m) && item.sn !in m
    ensures Represents(s + [item], m[item.sn := item.fragment])
  {
    var r, m' := s + [item], m[item.sn := item.fragment];
    forall sn | sn in m' ensures exists i :: 0 <= i < |r| && r[i].sn == sn {
      if sn == item.sn {
        assert r[|s|].sn == sn;
      } else {
        var i :| 0 <= i < |s| && s[i].sn == sn;
        assert r[i].sn == sn;
      }
    }
  }

  lemma PushOrdered(s: seq<Item>, item: Item)
    requires Ordered(s)
    ensures OrderedUp(s + [item], |s|)
  {
    hide Diff32;
    var r := s + [item];
    forall i | 0 < i < |s| ensures Diff32(r[i].sn, r[Parent(i)].sn) >= 0 {
      assert Diff32(s[i].sn, s[Parent(i)].sn) >= 0;
    }
  }

  lemma UpDone(s: seq<Item>, base: u32, index: nat)
    requires InRange(s, base) && 0 < index < |s| && OrderedUp(s, index)
    requires Diff32(s[Parent(index)].sn, s[index].sn) <= 0
    ensures Ordered(s)
  {
    hide Diff32, Rank;
    Compare(s, base, index, Parent(index));
    Compare(s, base, Parent(index), index);
  }

  lemma SmallestChild(s: seq<Item>, base: u32, index: nat, smallest: nat)
    requires InRange(s, base) && index * 2 + 1 < |s|
    requires smallest == if index * 2 + 2 < |s| && Diff32(s[index * 2 + 1].sn, s[index * 2 + 2].sn) > 0
                         then index * 2 + 2 else index * 2 + 1
    ensures forall i :: 0 < i < |s| && Parent(i) == index ==> Diff32(s[i].sn, s[smallest].sn) >= 0
  {
    hide Diff32, Rank;
    forall i | 0 < i < |s| && Parent(i) == index ensures Diff32(s[i].sn, s[smallest].sn) >= 0 {
      Compare(s, base, i, smallest);
      Compare(s, base, smallest, i);
      assert i == index * 2 + 1 || i == index * 2 + 2;
    }
  }

  lemma DownDone(s: seq<Item>, base: u32, index: nat, smallest: nat)
    requires InRange(s, base) && index < |s| && smallest < |s| && OrderedDown(s, index)
    requires forall i :: 0 < i < |s| && Parent(i) == index ==> Diff32(s[i].sn, s[smallest].sn) >= 0
    requires Diff32(s[index].sn, s[smallest].sn) <= 0
    ensures Ordered(s)
  {
    hide Diff32, Rank;
    forall i | 0 < i < |s| ensures Diff32(s[i].sn, s[Parent(i)].sn) >= 0 {
      if Parent(i) == index {
        Compare(s, base, i, smallest);
        Compare(s, base, index, smallest);
        Compare(s, base, i, index);
      }
    }
  }

  lemma RootOfAll(s: seq<Item>, m: map<u32, Fragment>, base: u32)
    requires Represents(s, m) && Ordered(s) && InRange(s, base) && s != []
    ensures s[0].sn in m && m[s[0].sn] == s[0].fragment
    ensures forall sn :: sn in m ==> Rank(s[0].sn, base) <= Rank(sn, base)
  {
    hide Rank, Ordered;
    forall sn | sn in m ensures Rank(s[0].sn, base) <= Rank(sn, base) {
      var i :| 0 <= i < |s| && s[i].sn == sn;
      RootLeast(s, base, i);
    }
  }

  /** Taking the root out and putting the last element in its place. */
  lemma TailMoved(s: seq<Item>, m: map<u32, Fragment>, base: u32)
    requires Represents(s, m) && Ordered(s) && InRange(s, base) && s != []
    ensures var last := |s| - 1;
            var r := if last > 0 then s[..last][0 := s[last]] else [];
            Represents(r, m - {s[0].sn}) && InRange(r, base) && (if r == [] then Ordered(r) else OrderedDown(r, 0))
            && (last == 0 ==> s[..last] == [])
  {
    hide Diff32, Rank;
    var last := |s| - 1;
    var r := if last > 0 then s[..last][0 := s[last]] else [];
    forall sn | sn in m - {s[0].sn} ensures exists i :: 0 <= i < |r| && r[i].sn == sn {
      var i :| 0 <= i < |s| && s[i].sn == sn;
      assert r[if i == last then 0 else i].sn == sn;
    }
    forall i | 0 < i < |r| && Parent(i) != 0 ensures Diff32(r[i].sn, r[Parent(i)].sn) >= 0 {
      assert Diff32(s[i].sn, s[Parent(i)].sn) >= 0;
    }
  }
}
