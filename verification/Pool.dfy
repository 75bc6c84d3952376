/** The static allocator's block list and free list as values: what Malloc and Free do to them. */
module Pool {
  import opened Sequences

  const BLOCK_SIZE: nat := 40
  const HEADER_SIZE: nat := 24

  datatype Block = Block(addr: nat, size: nat, free: bool)

  /** blocks in address order, and the addresses of the free list from its head. */
  datatype Pool = Pool(blocks: seq<Block>, order: seq<nat>)

  /** The blocks, with their headers, cover the region exactly. */
  predicate Tiles(blocks: seq<Block>, start: nat, end: nat) {
    && blocks != [] && blocks[0].addr == start > 0
    && (forall i :: 0 <= i < |blocks| - 1 ==> blocks[i + 1].addr == blocks[i].addr + BLOCK_SIZE + blocks[i].size)
    && blocks[|blocks| - 1].addr + BLOCK_SIZE + blocks[|blocks| - 1].size == end
  }

  predicate FreeAt(blocks: seq<Block>, a: nat) {
    exists i :: 0 <= i < |blocks| && blocks[i].addr == a && blocks[i].free
  }

  /** The free list holds each free block once, and nothing else; but for the block at skip. */
  ghost predicate Lists(blocks: seq<Block>, order: seq<nat>, skip: nat) {
    && Distinct(order)
    && (forall a :: a in order <==> FreeAt(blocks, a) && a != skip)
  }

  predicate NoAdjacentFree(blocks: seq<Block>) {
    forall i :: 0 <= i < |blocks| - 1 ==> !(blocks[i].free && blocks[i + 1].free)
  }

  ghost predicate Inv(p: Pool, start: nat, end: nat) {
    Tiles(p.blocks, start, end) && Lists(p.blocks, p.order, 0) && NoAdjacentFree(p.blocks)
  }

  /** Bytes in use: live blocks with their headers. */
  function Live(blocks: seq<Block>): nat {
    if blocks == [] then 0
    else (if blocks[0].free then 0 else BLOCK_SIZE + blocks[0].size) + Live(blocks[1..])
  }

  function Fresh(start: nat, size: nat): Pool {
    Pool([Block(start, size, true)], [start])
  }

  // ---- Positions ------------------------------------------------------------------------------

  lemma {:induction false} Addresses(blocks: seq<Block>, start: nat, end: nat, i: nat, j: nat)
    requires Tiles(blocks, start, end) && i < j < |blocks|
    ensures start <= blocks[i].addr && blocks[i].addr + BLOCK_SIZE + blocks[i].size <= blocks[j].addr
    ensures blocks[j].addr + BLOCK_SIZE + blocks[j].size <= end
    decreases j - i
  {
    if i + 1 < j { Addresses(blocks, start, end, i + 1, j); }
    FromStart(blocks, start, end, i);
    ToEnd(blocks, start, end, j);
  }

  lemma {:induction false} FromStart(blocks: seq<Block>, start: nat, end: nat, i: nat)
    requires Tiles(blocks, start, end) && i < |blocks|
    ensures start <= blocks[i].addr
  {
    if i > 0 { FromStart(blocks, start, end, i - 1); }
  }

  lemma {:induction false} ToEnd(blocks: seq<Block>, start: nat, end: nat, i: nat)
    requires Tiles(blocks, start, end) && i < |blocks|
    ensures blocks[i].addr + BLOCK_SIZE + blocks[i].size <= end
    decreases |blocks| - i
  {
    if i + 1 < |blocks| { ToEnd(blocks, start, end, i + 1); }
  }

  lemma SameBlock(blocks: seq<Block>, start: nat, end: nat, i: nat, j: nat)
    requires Tiles(blocks, start, end) && i < |blocks| && j < |blocks| && blocks[i].addr == blocks[j].addr
    ensures i == j
  {
    if i < j { Addresses(blocks, start, end, i, j); }
    if j < i { Addresses(blocks, start, end, j, i); }
  }

  // ---- Malloc ---------------------------------------------------------------------------------

  /** (size + 7) &^ 7 on 64-bit words. */
  function Rounded(size: nat): nat {
    (size + 7) % 0x1_0000_0000_0000_0000 / 8 * 8
  }

  /** Rounding covers the request exactly when the addition does not wrap. */
  lemma RoundedCovers(size: nat)
    requires size < 0x1_0000_0000_0000_0000
    ensures Rounded(size) >= size <==> size <= 0xffff_ffff_ffff_fff8
    ensures Multiple8(Rounded(size))
    ensures size <= 0xffff_ffff_ffff_fff8 ==> Rounded(size) < size + 8
  {
  }

  /** Block i taken for size bytes, its remainder split off when that can hold a header and more. */
  function Carved(blocks: seq<Block>, i: nat, size: nat): seq<Block>
    requires i < |blocks| && size <= blocks[i].size
  {
    var b := blocks[i];
    if b.size - size > BLOCK_SIZE then
      blocks[..i] + [Block(b.addr, size, false), Block(b.addr + BLOCK_SIZE + size, b.size - size - BLOCK_SIZE, true)]
      + blocks[i + 1..]
    else blocks[i := b.(free := false)]
  }

  function Taken(p: Pool, i: nat, size: nat): Pool
    requires i < |p.blocks| && size <= p.blocks[i].size
  {
    var b := p.blocks[i];
    Pool(Carved(p.blocks, i, size),
         Without(if b.size - size > BLOCK_SIZE then [b.addr + BLOCK_SIZE + size] + p.order else p.order, b.addr))
  }

  /** Carving block by block. */
  lemma CarvedAt(blocks: seq<Block>, i: nat, size: nat)
    requires i < |blocks| && size <= blocks[i].size
    ensures var b, r := blocks[i], Carved(blocks, i, size);
            && (forall j :: 0 <= j < i ==> r[j] == blocks[j])
            && if b.size - size > BLOCK_SIZE then
                 && |r| == |blocks| + 1 && r[i] == Block(b.addr, size, false)
                 && r[i + 1] == Block(b.addr + BLOCK_SIZE + size, b.size - size - BLOCK_SIZE, true)
                 && (forall j :: i < j < |blocks| ==> r[j + 1] == blocks[j])
               else
                 |r| == |blocks| && r[i] == b.(free := false) && (forall j :: i < j < |blocks| ==> r[j] == blocks[j])
  {
  }

  lemma CarvedTiles(blocks: seq<Block>, start: nat, end: nat, i: nat, size: nat)
    requires Tiles(blocks, start, end) && i < |blocks| && size <= blocks[i].size
    ensures Tiles(Carved(blocks, i, size), start, end)
  {
    hide Carved;
    CarvedAt(blocks, i, size);
    var b, r := blocks[i], Carved(blocks, i, size);
    if b.size - size > BLOCK_SIZE {
      forall j | 0 <= j < |r| - 1 ensures r[j + 1].addr == r[j].addr + BLOCK_SIZE + r[j].size {
        if j > i {
          assert r[j + 1] == blocks[j];
          if j > i + 1 { assert r[j - 1 + 1] == blocks[j - 1]; }
          assert blocks[j - 1 + 1].addr == blocks[j - 1].addr + BLOCK_SIZE + blocks[j - 1].size;
        }
      }
      assert i + 1 < |blocks| ==> r[|blocks|] == blocks[|blocks| - 1];
    }
  }

  lemma CarvedSeparate(blocks: seq<Block>, i: nat, size: nat)
    requires NoAdjacentFree(blocks) && i < |blocks| && size <= blocks[i].size && blocks[i].free
    ensures NoAdjacentFree(Carved(blocks, i, size))
  {
    hide Carved;
    CarvedAt(blocks, i, size);
    var b, r := blocks[i], Carved(blocks, i, size);
    if b.size - size > BLOCK_SIZE {
      forall j | 0 <= j < |r| - 1 ensures !(r[j].free && r[j + 1].free) {
        if j > i {
          assert r[j + 1] == blocks[j];
          if j > i + 1 { assert r[j - 1 + 1] == blocks[j - 1]; }
          assert !(blocks[j - 1].free && blocks[j - 1 + 1].free);
        }
      }
    }
  }

  /** Carving makes block i live and frees nothing but the remainder. */
  lemma CarvedFree(blocks: seq<Block>, start: nat, end: nat, i: nat, size: nat, a: nat)
    requires Tiles(blocks, start, end) && i < |blocks| && size <= blocks[i].size && blocks[i].free
    ensures FreeAt(Carved(blocks, i, size), a) <==>
            a != blocks[i].addr &&
            (FreeAt(blocks, a) || (blocks[i].size - size > BLOCK_SIZE && a == blocks[i].addr + BLOCK_SIZE + size))
  {
    hide Carved, Tiles, FreeAt;
    if FreeAt(Carved(blocks, i, size), a) { CarvedFreeOnly(blocks, start, end, i, size, a); }
    CarvedFreeKept(blocks, i, size, a);
  }

  lemma CarvedFreeKept(blocks: seq<Block>, i: nat, size: nat, a: nat)
    requires i < |blocks| && size <= blocks[i].size
    ensures a != blocks[i].addr && FreeAt(blocks, a) ==> FreeAt(Carved(blocks, i, size), a)
    ensures blocks[i].size - size > BLOCK_SIZE && a == blocks[i].addr + BLOCK_SIZE + size ==>
              FreeAt(Carved(blocks, i, size), a)
  {
    hide Carved;
    CarvedAt(blocks, i, size);
    var r := Carved(blocks, i, size);
    var split := blocks[i].size - size > BLOCK_SIZE;
    if a != blocks[i].addr && FreeAt(blocks, a) {
      var j :| 0 <= j < |blocks| && blocks[j].addr == a && blocks[j].free;
      assert r[if j < i || !split then j else j + 1] == blocks[j];
    }
    if split { assert r[i + 1].free; }
  }

  lemma CarvedFreeOnly(blocks: seq<Block>, start: nat, end: nat, i: nat, size: nat, a: nat)
    requires Tiles(blocks, start, end) && i < |blocks| && size <= blocks[i].size
    requires FreeAt(Carved(blocks, i, size), a)
    ensures a != blocks[i].addr
    ensures FreeAt(blocks, a) || (blocks[i].size - size > BLOCK_SIZE && a == blocks[i].addr + BLOCK_SIZE + size)
  {
    hide Carved, Tiles;
    CarvedAt(blocks, i, size);
    CarvedTiles(blocks, start, end, i, size);
    var r := Carved(blocks, i, size);
    var split := blocks[i].size - size > BLOCK_SIZE;
    var j :| 0 <= j < |r| && r[j].addr == a && r[j].free;
    if a == blocks[i].addr { SameBlock(r, start, end, i, j); }
    if j < i || !split { assert r[j] == blocks[j]; }
    else if j > i + 1 { assert r[j - 1 + 1] == blocks[j - 1]; }
  }

  /** A new address between blocks is on no free list. */
  lemma CarvedNew(blocks: seq<Block>, start: nat, end: nat, i: nat, size: nat)
    requires Tiles(blocks, start, end) && i < |blocks| && blocks[i].size - size > BLOCK_SIZE
    ensures forall j :: 0 <= j < |blocks| ==> blocks[j].addr != blocks[i].addr + BLOCK_SIZE + size
  {
    forall j | 0 <= j < |blocks| ensures blocks[j].addr != blocks[i].addr + BLOCK_SIZE + size {
      if j < i { Addresses(blocks, start, end, j, i); }
      if i < j { Addresses(blocks, start, end, i, j); }
    }
  }

  lemma TakenInv(p: Pool, start: nat, end: nat, i: nat, size: nat)
    requires Inv(p, start, end) && i < |p.blocks| && size <= p.blocks[i].size && p.blocks[i].free
    ensures Inv(Taken(p, i, size), start, end)
  {
    hide Carved, Without, Tiles, NoAdjacentFree, Lists;
    CarvedTiles(p.blocks, start, end, i, size);
    CarvedSeparate(p.blocks, i, size);
    TakenLists(p, start, end, i, size);
  }

  lemma TakenLists(p: Pool, start: nat, end: nat, i: nat, size: nat)
    requires Inv(p, start, end) && i < |p.blocks| && size <= p.blocks[i].size && p.blocks[i].free
    ensures Lists(Taken(p, i, size).blocks, Taken(p, i, size).order, 0)
  {
    hide Carved, FreeAt, Without, Tiles, NoAdjacentFree;
    var b := p.blocks[i];
    var split, nb := b.size - size > BLOCK_SIZE, b.addr + BLOCK_SIZE + size;
    var order := if split then [nb] + p.order else p.order;
    if split { NewUnlisted(p, start, end, i, size); }
    ConsMembers(nb, p.order);
    WithoutAll(order, b.addr);
    forall a ensures a in Without(order, b.addr) <==> FreeAt(Carved(p.blocks, i, size), a) && a != 0 {
      CarvedFree(p.blocks, start, end, i, size, a);
      assert a in p.order <==> FreeAt(p.blocks, a) && a != 0;
    }
  }

  lemma ConsMembers(x0: nat, s: seq<nat>)
    ensures forall x :: x in [x0] + s <==> x == x0 || x in s
  {
  }

  lemma NewUnlisted(p: Pool, start: nat, end: nat, i: nat, size: nat)
    requires Inv(p, start, end) && i < |p.blocks| && p.blocks[i].size - size > BLOCK_SIZE
    ensures p.blocks[i].addr + BLOCK_SIZE + size !in p.order
  {
    CarvedNew(p.blocks, start, end, i, size);
  }

  // ---- Free -----------------------------------------------------------------------------------

  /** Blocks k and k + 1 become one free block. */
  function Merged(blocks: seq<Block>, k: nat): seq<Block>
    requires k + 1 < |blocks|
  {
    blocks[..k] + [Block(blocks[k].addr, blocks[k].size + blocks[k + 1].size + BLOCK_SIZE, true)] + blocks[k + 2..]
  }

  lemma MergedAt(blocks: seq<Block>, k: nat)
    requires k + 1 < |blocks|
    ensures var r := Merged(blocks, k);
            && |r| == |blocks| - 1 && (forall j :: 0 <= j < k ==> r[j] == blocks[j])
            && r[k] == Block(blocks[k].addr, blocks[k].size + blocks[k + 1].size + BLOCK_SIZE, true)
            && (forall j :: k < j < |r| ==> r[j] == blocks[j + 1])
  {
  }

  lemma MergedTiles(blocks: seq<Block>, start: nat, end: nat, k: nat)
    requires Tiles(blocks, start, end) && k + 1 < |blocks|
    ensures Tiles(Merged(blocks, k), start, end)
  {
    hide Merged;
    MergedAt(blocks, k);
    var r := Merged(blocks, k);
    forall j | 0 <= j < |r| - 1 ensures r[j + 1].addr == r[j].addr + BLOCK_SIZE + r[j].size {
      if j >= k { assert blocks[j + 1 + 1].addr == blocks[j + 1].addr + BLOCK_SIZE + blocks[j + 1].size; }
      if j == k { assert blocks[k + 1].addr == blocks[k].addr + BLOCK_SIZE + blocks[k].size; }
    }
    if k + 2 == |blocks| { assert blocks[k + 1].addr == blocks[k].addr + BLOCK_SIZE + blocks[k].size; }
  }

  lemma MergedFree(blocks: seq<Block>, start: nat, end: nat, k: nat, a: nat)
    requires Tiles(blocks, start, end) && k + 1 < |blocks| && blocks[k].free
    ensures FreeAt(Merged(blocks, k), a) <==> FreeAt(blocks, a) && a != blocks[k + 1].addr
  {
    hide Merged, Tiles;
    MergedAt(blocks, k);
    MergedTiles(blocks, start, end, k);
    var r := Merged(blocks, k);
    if FreeAt(r, a) {
      var j :| 0 <= j < |r| && r[j].addr == a && r[j].free;
      var j' := if j <= k then j else j + 1;
      assert blocks[j'].addr == a && blocks[j'].free;
      if a == blocks[k + 1].addr { SameBlock(blocks, start, end, j', k + 1); }
    }
    if FreeAt(blocks, a) && a != blocks[k + 1].addr {
      var j :| 0 <= j < |blocks| && blocks[j].addr == a && blocks[j].free;
      var j' := if j <= k then j else j - 1;
      assert r[j'].addr == a && r[j'].free;
    }
  }

  /** Midway through Free: block i is free and not yet listed, and may have free neighbours. */
  ghost predicate Released(blocks: seq<Block>, order: seq<nat>, i: nat, start: nat, end: nat) {
    && Tiles(blocks, start, end) && i < |blocks| && blocks[i].free
    && Lists(blocks, order, blocks[i].addr)
    && (forall k :: 0 <= k < |blocks| - 1 && k != i && k + 1 != i ==> !(blocks[k].free && blocks[k + 1].free))
  }

  lemma MergeReleased(blocks: seq<Block>, order: seq<nat>, i: nat, k: nat, start: nat, end: nat)
    requires Released(blocks, order, i, start, end) && (k == i || k + 1 == i) && k + 1 < |blocks|
    requires blocks[k].free && blocks[k + 1].free
    ensures var other := blocks[if k == i then k + 1 else k].addr;
            other in order && Released(Merged(blocks, k), Without(order, other), k, start, end)
    ensures k + 1 < |Merged(blocks, k)| && blocks[k + 2].free ==> k + 1 == i
  {
    hide Merged, FreeAt, Without, Tiles;
    var other := blocks[if k == i then k + 1 else k].addr;
    MergedTiles(blocks, start, end, k);
    MergedAt(blocks, k);
    WithoutAll(order, other);
    SameAddress(blocks, start, end, k);
    forall a ensures a in Without(order, other) <==> FreeAt(Merged(blocks, k), a) && a != blocks[k].addr {
      MergedFree(blocks, start, end, k, a);
    }
    var r := Merged(blocks, k);
    forall j | 0 <= j < |r| - 1 && j != k && j + 1 != k ensures !(r[j].free && r[j + 1].free) {
      if j > k { assert !(blocks[j + 1].free && blocks[j + 1 + 1].free); }
    }
  }

  lemma SameAddress(blocks: seq<Block>, start: nat, end: nat, k: nat)
    requires Tiles(blocks, start, end) && k + 1 < |blocks|
    ensures blocks[k].addr != blocks[k + 1].addr
    ensures blocks[k].free ==> FreeAt(blocks, blocks[k].addr)
    ensures blocks[k + 1].free ==> FreeAt(blocks, blocks[k + 1].addr)
  {
  }

  function MergedNext(p: Pool, i: nat): Pool
    requires i < |p.blocks|
  {
    if i + 1 < |p.blocks| && p.blocks[i + 1].free then Pool(Merged(p.blocks, i), Without(p.order, p.blocks[i + 1].addr))
    else p
  }

  /** Block i, released, joined with its free neighbours and put at the head of the free list. */
  function Coalesced(p: Pool, i: nat): Pool
    requires i < |p.blocks|
  {
    var p1 := MergedNext(p, i);
    if i > 0 && i < |p1.blocks| && p1.blocks[i - 1].free then
      Pool(Merged(p1.blocks, i - 1), [p1.blocks[i - 1].addr] + Without(p1.order, p1.blocks[i - 1].addr))
    else p1.(order := [p.blocks[i].addr] + p1.order)
  }

  function Freed(p: Pool, i: nat): Pool
    requires i < |p.blocks|
  {
    Coalesced(p.(blocks := p.blocks[i := p.blocks[i].(free := true)]), i)
  }

  lemma ReleasedFirst(p: Pool, start: nat, end: nat, i: nat)
    requires Inv(p, start, end) && i < |p.blocks| && !p.blocks[i].free
    ensures Released(p.blocks[i := p.blocks[i].(free := true)], p.order, i, start, end)
  {
    hide FreeAt;
    var r := p.blocks[i := p.blocks[i].(free := true)];
    forall a ensures a in p.order <==> FreeAt(r, a) && a != p.blocks[i].addr {
      FreeingOne(p.blocks, start, end, i, a);
    }
  }

  lemma FreeingOne(blocks: seq<Block>, start: nat, end: nat, i: nat, a: nat)
    requires Tiles(blocks, start, end) && i < |blocks| && !blocks[i].free
    ensures FreeAt(blocks[i := blocks[i].(free := true)], a) <==> FreeAt(blocks, a) || a == blocks[i].addr
    ensures a == blocks[i].addr ==> !FreeAt(blocks, a)
    ensures FreeAt(blocks, a) ==> a != 0
  {
    var r := blocks[i := blocks[i].(free := true)];
    if FreeAt(r, a) {
      var j :| 0 <= j < |r| && r[j].addr == a && r[j].free;
      if j != i { assert blocks[j] == r[j]; }
    }
    if FreeAt(blocks, a) {
      var j :| 0 <= j < |blocks| && blocks[j].addr == a && blocks[j].free;
      assert r[j] == blocks[j];
      if a == blocks[i].addr { SameBlock(blocks, start, end, i, j); }
      FromStart(blocks, start, end, j);
    }
    assert r[i].free;
  }

  /** Listing the released block completes the invariant, once its neighbours are live. */
  lemma ReleasedLast(blocks: seq<Block>, order: seq<nat>, i: nat, start: nat, end: nat)
    requires Released(blocks, order, i, start, end)
    requires i > 0 ==> !blocks[i - 1].free
    requires i + 1 < |blocks| ==> !blocks[i + 1].free
    ensures Inv(Pool(blocks, [blocks[i].addr] + order), start, end)
  {
    hide FreeAt;
    var a0 := blocks[i].addr;
    assert a0 !in order;
    forall k | 0 <= k < |blocks| - 1 ensures !(blocks[k].free && blocks[k + 1].free) {
      if k + 1 == i { assert !blocks[i - 1].free; }
    }
    forall a ensures a in [a0] + order <==> FreeAt(blocks, a) && a != 0 {
      FromStart(blocks, start, end, i);
      ListedPositive(blocks, start, end, i, a);
    }
  }

  lemma ListedPositive(blocks: seq<Block>, start: nat, end: nat, i: nat, a: nat)
    requires Tiles(blocks, start, end) && i < |blocks| && blocks[i].free
    ensures FreeAt(blocks, a) ==> a != 0
    ensures FreeAt(blocks, blocks[i].addr)
  {
    if FreeAt(blocks, a) {
      var j :| 0 <= j < |blocks| && blocks[j].addr == a && blocks[j].free;
      FromStart(blocks, start, end, j);
    }
  }

  lemma FreedInv(p: Pool, start: nat, end: nat, i: nat)
    requires Inv(p, start, end) && i < |p.blocks| && !p.blocks[i].free
    ensures Inv(Freed(p, i), start, end)
  {
    hide Merged, Without, Tiles, FreeAt, Lists;
    ReleasedFirst(p, start, end, i);
    var p0 := p.(blocks := p.blocks[i := p.blocks[i].(free := true)]);
    if i + 1 < |p.blocks| && p0.blocks[i + 1].free {
      MergeReleased(p0.blocks, p0.order, i, i, start, end);
      MergedAt(p0.blocks, i);
    }
    var p1 := MergedNext(p0, i);
    assert Released(p1.blocks, p1.order, i, start, end);
    assert p1.blocks[i].addr == p.blocks[i].addr;
    assert i + 1 < |p1.blocks| ==> !p1.blocks[i + 1].free;
    if i > 0 && p1.blocks[i - 1].free {
      MergeReleased(p1.blocks, p1.order, i, i - 1, start, end);
      MergedAt(p1.blocks, i - 1);
      ReleasedLast(Merged(p1.blocks, i - 1), Without(p1.order, p1.blocks[i - 1].addr), i - 1, start, end);
    } else {
      ReleasedLast(p1.blocks, p1.order, i, start, end);
    }
  }

  // ---- Bytes in use ---------------------------------------------------------------------------

  lemma {:induction false} LiveAppend(a: seq<Block>, b: seq<Block>)
    ensures Live(a + b) == Live(a) + Live(b)
  {
    if a == [] {
      assert a + b == b;
    } else {
      assert (a + b)[1..] == a[1..] + b;
      LiveAppend(a[1..], b);
    }
  }

  lemma LiveAround(a: seq<Block>, mid: seq<Block>, b: seq<Block>)
    ensures Live(a + mid + b) == Live(a) + Live(mid) + Live(b)
  {
    LiveAppend(a + mid, b);
    LiveAppend(a, mid);
  }

  lemma LiveOne(b: Block)
    ensures Live([b]) == if b.free then 0 else BLOCK_SIZE + b.size
  {
    assert Live([b][1..]) == 0;
  }

  lemma LiveReplace(blocks: seq<Block>, i: nat, mid: seq<Block>)
    requires i < |blocks|
    ensures Live(blocks[..i] + mid + blocks[i + 1..]) == Live(blocks) - Live([blocks[i]]) + Live(mid)
  {
    hide Live;
    LiveAround(blocks[..i], [blocks[i]], blocks[i + 1..]);
    assert blocks == blocks[..i] + [blocks[i]] + blocks[i + 1..];
    LiveAround(blocks[..i], mid, blocks[i + 1..]);
  }

  lemma LiveUpdate(blocks: seq<Block>, i: nat, b: Block)
    requires i < |blocks|
    ensures Live(blocks[i := b]) == Live(blocks) - Live([blocks[i]]) + Live([b])
  {
    hide Live;
    LiveReplace(blocks, i, [b]);
    assert blocks[i := b] == blocks[..i] + [b] + blocks[i + 1..];
  }

  lemma LivePair(b: Block, c: Block)
    ensures Live([b, c]) == Live([b]) + Live([c])
  {
    LiveAppend([b], [c]);
    assert [b] + [c] == [b, c];
  }

  /** What Malloc adds to the bytes in use. */
  lemma CarvedLive(blocks: seq<Block>, i: nat, size: nat)
    requires i < |blocks| && size <= blocks[i].size && blocks[i].free
    ensures Carved(blocks, i, size)[i].addr == blocks[i].addr
    ensures Live(Carved(blocks, i, size)) == Live(blocks) + BLOCK_SIZE + Carved(blocks, i, size)[i].size
  {
    hide Live;
    var b := blocks[i];
    LiveOne(b);
    LiveOne(Block(b.addr, size, false));
    LiveOne(b.(free := false));
    if b.size - size > BLOCK_SIZE {
      var rest := Block(b.addr + BLOCK_SIZE + size, b.size - size - BLOCK_SIZE, true);
      LiveReplace(blocks, i, [Block(b.addr, size, false), rest]);
      LivePair(Block(b.addr, size, false), rest);
      LiveOne(rest);
    } else {
      LiveUpdate(blocks, i, b.(free := false));
    }
  }

  lemma FreeLive(blocks: seq<Block>, i: nat)
    requires i < |blocks| && !blocks[i].free
    ensures Live(blocks[i := blocks[i].(free := true)]) == Live(blocks) - BLOCK_SIZE - blocks[i].size
  {
    hide Live;
    LiveUpdate(blocks, i, blocks[i].(free := true));
    LiveOne(blocks[i]);
    LiveOne(blocks[i].(free := true));
  }

  lemma MergedLive(blocks: seq<Block>, k: nat)
    requires k + 1 < |blocks| && blocks[k].free && blocks[k + 1].free
    ensures Live(Merged(blocks, k)) == Live(blocks)
  {
    hide Live;
    var m := Block(blocks[k].addr, blocks[k].size + blocks[k + 1].size + BLOCK_SIZE, true);
    LiveAround(blocks[..k], [m], blocks[k + 2..]);
    LiveAround(blocks[..k], [blocks[k], blocks[k + 1]], blocks[k + 2..]);
    LivePair(blocks[k], blocks[k + 1]);
    assert blocks == blocks[..k] + [blocks[k], blocks[k + 1]] + blocks[k + 2..];
    LiveOne(m);
    LiveOne(blocks[k]);
    LiveOne(blocks[k + 1]);
  }

  lemma FreedLive(p: Pool, i: nat)
    requires i < |p.blocks| && !p.blocks[i].free
    ensures Live(Freed(p, i).blocks) == Live(p.blocks) - BLOCK_SIZE - p.blocks[i].size
  {
    hide Live, Merged;
    FreeLive(p.blocks, i);
    var blocks := p.blocks[i := p.blocks[i].(free := true)];
    if i + 1 < |blocks| && blocks[i + 1].free {
      MergedLive(blocks, i);
      MergedAt(blocks, i);
    }
    var p1 := MergedNext(p.(blocks := blocks), i);
    if i > 0 && p1.blocks[i - 1].free {
      MergedLive(p1.blocks, i - 1);
    }
  }

  // ---- Theorems -------------------------------------------------------------------------------

  /** Payloads of two blocks never overlap, and lie inside the region. */
  lemma Disjoint(p: Pool, start: nat, end: nat, i: nat, j: nat)
    requires Inv(p, start, end) && i < |p.blocks| && j < |p.blocks| && i != j
    ensures start + BLOCK_SIZE <= p.blocks[i].addr + BLOCK_SIZE <= p.blocks[i].addr + BLOCK_SIZE
            + p.blocks[i].size <= end
    ensures p.blocks[i].addr + BLOCK_SIZE + p.blocks[i].size <= p.blocks[j].addr
         || p.blocks[j].addr + BLOCK_SIZE + p.blocks[j].size <= p.blocks[i].addr
  {
    FromStart(p.blocks, start, end, i);
    ToEnd(p.blocks, start, end, i);
    if i < j { Addresses(p.blocks, start, end, i, j); } else { Addresses(p.blocks, start, end, j, i); }
  }

  /** When nothing is live there is one block, the one the allocator started with. */
  lemma AllFree(p: Pool, start: nat, size: nat)
    requires Inv(p, start, start + BLOCK_SIZE + size) && forall i :: 0 <= i < |p.blocks| ==> p.blocks[i].free
    ensures p == Fresh(start, size)
  {
    hide NoAdjacentFree, Distinct;
    if |p.blocks| > 1 { NotBoth(p.blocks); }
    assert FreeAt(p.blocks, start) by { assert p.blocks[0].free; }
    forall i | 0 <= i < |p.order| ensures p.order[i] == start { assert p.order[i] in p.order; }
    if |p.order| > 1 { Different(p.order); }
  }

  lemma NotBoth(blocks: seq<Block>)
    requires NoAdjacentFree(blocks) && |blocks| > 1
    ensures !(blocks[0].free && blocks[1].free)
  {
    assert !(blocks[0].free && blocks[0 + 1].free);
  }

  lemma Different(order: seq<nat>)
    requires Distinct(order) && |order| > 1
    ensures order[0] != order[1]
  {
  }

  predicate Multiple8(x: int) {
    x % 8 == 0
  }

  lemma AddMultiples(x: int, y: int)
    requires Multiple8(x) && Multiple8(y)
    ensures Multiple8(x + y + BLOCK_SIZE)
  {
  }

  /** Every block starts at a multiple of eight from the first. */
  predicate Aligned(blocks: seq<Block>, start: nat) {
    forall i :: 0 <= i < |blocks| ==> Multiple8(blocks[i].addr - start)
  }

  lemma CarvedAligned(blocks: seq<Block>, start: nat, i: nat, size: nat)
    requires Aligned(blocks, start) && i < |blocks| && size <= blocks[i].size && Multiple8(size)
    ensures Aligned(Carved(blocks, i, size), start)
  {
    hide Carved, Multiple8;
    CarvedAt(blocks, i, size);
    var r := Carved(blocks, i, size);
    var split := blocks[i].size - size > BLOCK_SIZE;
    AddMultiples(blocks[i].addr - start, size);
    forall j | 0 <= j < |r| ensures Multiple8(r[j].addr - start) {
      if j < i || !split { assert r[j].addr == blocks[j].addr; }
      else if j > i + 1 { assert r[j - 1 + 1] == blocks[j - 1]; }
      else if j == i + 1 { assert r[j].addr - start == blocks[i].addr - start + size + BLOCK_SIZE; }
    }
  }

  lemma MergedAligned(blocks: seq<Block>, start: nat, k: nat)
    requires Aligned(blocks, start) && k + 1 < |blocks|
    ensures Aligned(Merged(blocks, k), start)
  {
    hide Merged, Multiple8;
    MergedAt(blocks, k);
    var r := Merged(blocks, k);
    forall j | 0 <= j < |r| ensures Multiple8(r[j].addr - start) {
      assert r[j].addr == blocks[if j <= k then j else j + 1].addr;
    }
  }

  lemma FreedAligned(p: Pool, start: nat, i: nat)
    requires Aligned(p.blocks, start) && i < |p.blocks|
    ensures Aligned(Freed(p, i).blocks, start)
  {
    hide Merged, Multiple8;
    var blocks := p.blocks[i := p.blocks[i].(free := true)];
    assert Aligned(blocks, start);
    if i + 1 < |blocks| { MergedAligned(blocks, start, i); }
    var p1 := MergedNext(p.(blocks := blocks), i);
    if 0 < i < |p1.blocks| { MergedAligned(p1.blocks, start, i - 1); }
  }

  // ---- Runs -----------------------------------------------------------------------------------

  datatype Op = Alloc(i: nat, size: nat) | Release(i: nat)

  predicate Allowed(p: Pool, op: Op) {
    op.i < |p.blocks| && match op
      case Alloc(i, size) => p.blocks[i].free && size <= p.blocks[i].size
      case Release(i) => !p.blocks[i].free
  }

  function After(p: Pool, op: Op): Pool
    requires Allowed(p, op)
  {
    match op
    case Alloc(i, size) => Taken(p, i, size)
    case Release(i) => Freed(p, i)
  }

  predicate Run(p: Pool, ops: seq<Op>)
    decreases |ops|
  {
    ops == [] || (Allowed(p, ops[0]) && Run(After(p, ops[0]), ops[1..]))
  }

  function Reached(p: Pool, ops: seq<Op>): Pool
    requires Run(p, ops)
    decreases |ops|
  {
    if ops == [] then p else Reached(After(p, ops[0]), ops[1..])
  }

  lemma {:induction false} RunInv(p: Pool, ops: seq<Op>, start: nat, end: nat)
    requires Inv(p, start, end) && Run(p, ops)
    ensures Inv(Reached(p, ops), start, end)
    decreases |ops|
  {
    hide Inv, Taken, Freed;
    if ops != [] {
      match ops[0] {
        case Alloc(i, size) => TakenInv(p, start, end, i, size);
        case Release(i) => FreedInv(p, start, end, i);
      }
      RunInv(After(p, ops[0]), ops[1..], start, end);
    }
  }

  /** Whatever was allocated and in whatever order it was freed, freeing everything restores the first block. */
  lemma FreeingAllRestores(start: nat, size: nat, ops: seq<Op>)
    requires start > 0 && Run(Fresh(start, size), ops)
    requires forall i :: 0 <= i < |Reached(Fresh(start, size), ops).blocks| ==>
                           Reached(Fresh(start, size), ops).blocks[i].free
    ensures Reached(Fresh(start, size), ops) == Fresh(start, size)
  {
    hide Inv, Run, Reached;
    FreshInv(start, size);
    RunInv(Fresh(start, size), ops, start, start + BLOCK_SIZE + size);
    AllFree(Reached(Fresh(start, size), ops), start, size);
  }

  lemma FreshInv(start: nat, size: nat)
    requires start > 0
    ensures Inv(Fresh(start, size), start, start + BLOCK_SIZE + size) && Aligned(Fresh(start, size).blocks, start)
  {
    var p := Fresh(start, size);
    forall a ensures a in p.order <==> FreeAt(p.blocks, a) && a != 0 {
      assert p.blocks[0].free;
    }
  }
}
