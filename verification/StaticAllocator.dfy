/** The static allocator: block headers and two linked lists in memory, updated in place. */
module StaticAllocator {
  import opened Words
  import opened Options
  import opened Sequences
  import opened Pool

  const TOP: int := 0x8000_0000_0000_0000

  // ---- Headers --------------------------------------------------------------------------------

  /** The free bit and the size share one word. */
  predicate GetFree(h: u64) {
    h / TOP == 1
  }

  function GetSize(h: u64): (size: nat)
    ensures size < TOP
  {
    h % TOP
  }

  function SetFree(h: u64, free: bool): u64 {
    (if free then TOP else 0) + h % TOP
  }

  function SetSize(h: u64, size: u64): u64 {
    h / TOP * TOP + size % TOP
  }

  /** Setting either part keeps the other, for sizes below 2^63. */
  lemma HeaderParts(h: u64, size: u64, free: bool)
    ensures GetFree(SetFree(h, free)) == free && GetSize(SetFree(h, free)) == GetSize(h)
    ensures GetFree(SetSize(h, size)) == GetFree(h)
    ensures GetSize(SetSize(h, size)) == size <==> size < TOP
  {
  }

  /** A block in memory; 0 is the nil pointer. */
  datatype Cell = Cell(header: u64, next: nat, prev: nat, freeNext: nat, freePrev: nat)

  type Memory = map<nat, Cell>

  // ---- The two lists in memory ----------------------------------------------------------------

  predicate BlockIn(m: Memory, blocks: seq<Block>, i: nat)
    requires i < |blocks|
  {
    && blocks[i].addr in m
    && var c := m[blocks[i].addr];
    && GetSize(c.header) == blocks[i].size && GetFree(c.header) == blocks[i].free
    && c.next == (if i + 1 < |blocks| then blocks[i + 1].addr else 0)
    && c.prev == (if i > 0 then blocks[i - 1].addr else 0)
  }

  /** The physical list of memory is blocks. */
  predicate Chained(m: Memory, blocks: seq<Block>) {
    forall i :: 0 <= i < |blocks| ==> BlockIn(m, blocks, i)
  }

  predicate LinkIn(m: Memory, order: seq<nat>, i: nat)
    requires i < |order|
  {
    && order[i] in m && order[i] != 0
    && m[order[i]].freeNext == (if i + 1 < |order| then order[i + 1] else 0)
    && m[order[i]].freePrev == (if i > 0 then order[i - 1] else 0)
  }

  /** The free list of memory is order. */
  predicate FreeChained(m: Memory, order: seq<nat>, head: nat) {
    && (forall i :: 0 <= i < |order| ==> LinkIn(m, order, i))
    && Distinct(order)
    && head == (if order == [] then 0 else order[0])
  }

  /** Only free links differ. */
  predicate SameBlocks(m: Memory, m': Memory) {
    && m.Keys == m'.Keys
    && forall a :: a in m ==> m'[a] == m[a].(freeNext := m'[a].freeNext, freePrev := m'[a].freePrev)
  }

  /** No free link differs. */
  predicate SameLinks(m: Memory, m': Memory) {
    && m.Keys <= m'.Keys
    && forall a :: a in m ==> m'[a].freeNext == m[a].freeNext && m'[a].freePrev == m[a].freePrev
  }

  lemma SameBlocksChained(m: Memory, m': Memory, blocks: seq<Block>)
    requires Chained(m, blocks) && SameBlocks(m, m')
    ensures Chained(m', blocks)
  {
    forall i | 0 <= i < |blocks| ensures BlockIn(m', blocks, i) {
      assert BlockIn(m, blocks, i);
    }
  }

  lemma SameLinksChained(m: Memory, m': Memory, order: seq<nat>, head: nat)
    requires FreeChained(m, order, head) && SameLinks(m, m')
    ensures FreeChained(m', order, head)
  {
    forall i | 0 <= i < |order| ensures LinkIn(m', order, i) {
      assert LinkIn(m, order, i);
    }
  }

  // ---- The free list --------------------------------------------------------------------------

  datatype Links = Links(m: Memory, head: nat)

  /** insertFreeBlock. */
  function Inserted(m: Memory, head: nat, b: nat): Links
    requires b in m && (head != 0 ==> head in m)
  {
    var m1 := m[b := m[b].(freeNext := head)];
    var m2 := if head != 0 then m1[head := m1[head].(freePrev := b)] else m1;
    Links(m2[b := m2[b].(freePrev := 0)], b)
  }

  lemma InsertedChained(m: Memory, order: seq<nat>, head: nat, b: nat)
    requires FreeChained(m, order, head) && b in m && b != 0 && b !in order
    ensures head != 0 ==> head in m
    ensures var l := Inserted(m, head, b);
            FreeChained(l.m, [b] + order, l.head) && SameBlocks(m, l.m)
  {
    if order != [] { assert LinkIn(m, order, 0); }
    var l := Inserted(m, head, b);
    var order' := [b] + order;
    forall i | 0 <= i < |order'| ensures LinkIn(l.m, order', i) {
      if i > 0 {
        assert LinkIn(m, order, i - 1);
        assert order[i - 1] in order;
      }
    }
  }

  /** removeFreeBlock. */
  function Removed(m: Memory, head: nat, b: nat): Links
    requires b in m && (m[b].freePrev != 0 ==> m[b].freePrev in m) && (m[b].freeNext != 0 ==> m[b].freeNext in m)
  {
    var next, prev := m[b].freeNext, m[b].freePrev;
    var m1 := if prev != 0 then m[prev := m[prev].(freeNext := next)] else m;
    var m2 := if next != 0 then m1[next := m1[next].(freePrev := prev)] else m1;
    Links(m2[b := m2[b].(freeNext := 0, freePrev := 0)], if prev != 0 then head else next)
  }

  lemma RemovedChained(m: Memory, order: seq<nat>, head: nat, k: nat)
    requires FreeChained(m, order, head) && k < |order|
    ensures var b := order[k];
            && b in m && (m[b].freePrev != 0 ==> m[b].freePrev in m) && (m[b].freeNext != 0 ==> m[b].freeNext in m)
            && var l := Removed(m, head, b);
               FreeChained(l.m, Without(order, b), l.head) && SameBlocks(m, l.m)
  {
    var b := order[k];
    assert LinkIn(m, order, k);
    if k > 0 { assert LinkIn(m, order, k - 1); }
    if k + 1 < |order| { assert LinkIn(m, order, k + 1); }
    var l := Removed(m, head, b);
    WithoutAt(order, k);
    RemovedLinks(m, order, head, k, l);
  }

  lemma RemovedLinks(m: Memory, order: seq<nat>, head: nat, k: nat, l: Links)
    requires FreeChained(m, order, head) && k < |order|
    requires order[k] in m && (m[order[k]].freePrev != 0 ==> m[order[k]].freePrev in m)
             && (m[order[k]].freeNext != 0 ==> m[order[k]].freeNext in m)
    requires l == Removed(m, head, order[k])
    ensures FreeChained(l.m, order[..k] + order[k + 1..], l.head) && SameBlocks(m, l.m)
  {
    var order' := order[..k] + order[k + 1..];
    assert LinkIn(m, order, k);
    if k > 0 { assert LinkIn(m, order, k - 1); }
    if k + 1 < |order| { assert LinkIn(m, order, k + 1); }
    forall i | 0 <= i < |order'| ensures LinkIn(l.m, order', i) {
      var i' := if i < k then i else i + 1;
      assert order'[i] == order[i'] && LinkIn(m, order, i');
      if i + 1 < |order'| { assert order'[i + 1] == order[if i + 1 < k then i + 1 else i + 2]; }
      if i > 0 { assert order'[i - 1] == order[if i - 1 < k then i - 1 else i]; }
    }
    assert order' != [] ==> order'[0] == order[if k > 0 then 0 else 1];
    forall i, j | 0 <= i < j < |order'| ensures order'[i] != order'[j] {
      assert order'[i] == order[if i < k then i else i + 1] && order'[j] == order[if j < k then j else j + 1];
    }
  }

  // ---- The physical list ----------------------------------------------------------------------

  /** Block i keeps size bytes; the rest becomes a block of its own. Both are free. */
  function Split(blocks: seq<Block>, i: nat, size: nat): (r: seq<Block>)
    requires i < |blocks| && blocks[i].size - size > BLOCK_SIZE
    ensures |r| == |blocks| + 1
  {
    var b := blocks[i];
    blocks[..i] + [Block(b.addr, size, true), Block(b.addr + BLOCK_SIZE + size, b.size - size - BLOCK_SIZE, true)]
    + blocks[i + 1..]
  }

  function Garbage(m: Memory, a: nat): Cell {
    if a in m then m[a] else Cell(0, 0, 0, 0, 0)
  }

  /** The new block and the links to it, before it is listed. */
  function LinkedNew(m: Memory, b: nat, size: u64): Memory
    requires b in m && GetSize(m[b].header) - size > BLOCK_SIZE && (m[b].next != 0 ==> m[b].next in m)
  {
    var nb := b + BLOCK_SIZE + size;
    var g := Garbage(m, nb);
    var header := SetFree(SetSize(g.header, GetSize(m[b].header) - size - BLOCK_SIZE), true);
    var m1 := m[nb := Cell(header, m[b].next, b, g.freeNext, g.freePrev)];
    var m2 := if m[b].next != 0 then m1[m[b].next := m1[m[b].next].(prev := nb)] else m1;
    m2[b := m2[b].(next := nb)]
  }

  function Resized(m: Memory, b: nat, size: u64): Memory
    requires b in m
  {
    m[b := m[b].(header := SetSize(m[b].header, size))]
  }

  /** Split block by block. */
  lemma SplitAt(blocks: seq<Block>, i: nat, size: nat)
    requires i < |blocks| && blocks[i].size - size > BLOCK_SIZE
    ensures var b, r := blocks[i], Split(blocks, i, size);
            && (forall j :: 0 <= j < i ==> r[j] == blocks[j])
            && r[i] == Block(b.addr, size, true)
            && r[i + 1] == Block(b.addr + BLOCK_SIZE + size, b.size - size - BLOCK_SIZE, true)
            && (forall j :: i < j < |blocks| ==> r[j + 1] == blocks[j])
  {
  }

  predicate BlockBounds(blocks: seq<Block>) {
    forall i :: 0 <= i < |blocks| ==> 0 < blocks[i].addr && blocks[i].size < TOP
  }

  predicate DistinctBlocks(blocks: seq<Block>) {
    forall i, j :: 0 <= i < j < |blocks| ==> blocks[i].addr != blocks[j].addr
  }

  lemma TilesDistinct(blocks: seq<Block>, start: nat, end: nat)
    requires Tiles(blocks, start, end) && end < TOP
    ensures DistinctBlocks(blocks) && BlockBounds(blocks)
  {
    forall i, j | 0 <= i < j < |blocks| ensures blocks[i].addr != blocks[j].addr {
      Addresses(blocks, start, end, i, j);
    }
    forall i | 0 <= i < |blocks| ensures 0 < blocks[i].addr && blocks[i].size < TOP {
      FromStart(blocks, start, end, i);
      ToEnd(blocks, start, end, i);
    }
  }

  lemma SplitChained(m: Memory, blocks: seq<Block>, i: nat, size: u64)
    requires Chained(m, blocks) && DistinctBlocks(blocks) && BlockBounds(blocks)
    requires i < |blocks| && blocks[i].size - size > BLOCK_SIZE && blocks[i].free
    requires forall j :: 0 <= j < |blocks| ==> blocks[j].addr != blocks[i].addr + BLOCK_SIZE + size
    ensures var b := blocks[i].addr;
            && b in m && GetSize(m[b].header) == blocks[i].size && (m[b].next != 0 ==> m[b].next in m)
            && var m' := LinkedNew(m, b, size);
               b in m' && Chained(Resized(m', b, size), Split(blocks, i, size)) && SameLinks(m, m')
               && b + BLOCK_SIZE + size in m'
  {
    hide GetSize, GetFree, SetSize, SetFree, Split;
    var b := blocks[i].addr;
    assert BlockIn(m, blocks, i);
    if i + 1 < |blocks| { assert BlockIn(m, blocks, i + 1); }
    var nb := b + BLOCK_SIZE + size;
    HeaderParts(Garbage(m, nb).header, blocks[i].size - size - BLOCK_SIZE, true);
    HeaderParts(SetSize(Garbage(m, nb).header, blocks[i].size - size - BLOCK_SIZE), 0, true);
    HeaderParts(m[b].header, size, true);
    var m' := Resized(LinkedNew(m, b, size), b, size);
    var r := Split(blocks, i, size);
    SplitAt(blocks, i, size);
    forall j | 0 <= j < |r| ensures BlockIn(m', r, j) {
      var j' := if j <= i then j else j - 1;
      assert BlockIn(m, blocks, j');
      if j > i + 1 { assert r[j' + 1] == blocks[j']; }
      if j > i && j + 1 < |r| { assert r[j + 1] == blocks[j]; }
      if j > i + 2 { assert r[j' - 1 + 1] == blocks[j' - 1]; }
    }
  }

  /** Block c joins the free block b before it. */
  function Joined(m: Memory, b: nat, c: nat): Memory
    requires b in m && c in m && (m[c].next != 0 ==> m[c].next in m)
    requires GetSize(m[b].header) + GetSize(m[c].header) + BLOCK_SIZE < TOP
  {
    var m1 := Resized(m, b, GetSize(m[b].header) + GetSize(m[c].header) + BLOCK_SIZE);
    var m2 := m1[b := m1[b].(next := m1[c].next)];
    if m2[c].next != 0 && m2[c].next in m2 then m2[m2[c].next := m2[m2[c].next].(prev := b)] else m2
  }

  lemma JoinedChained(m: Memory, blocks: seq<Block>, k: nat)
    requires Chained(m, blocks) && DistinctBlocks(blocks) && BlockBounds(blocks)
    requires k + 1 < |blocks| && blocks[k].free && blocks[k].size + blocks[k + 1].size + BLOCK_SIZE < TOP
    ensures var b, c := blocks[k].addr, blocks[k + 1].addr;
            && b in m && c in m && (m[c].next != 0 ==> m[c].next in m)
            && GetSize(m[b].header) == blocks[k].size && GetSize(m[c].header) == blocks[k + 1].size
            && var m' := Joined(m, b, c);
               Chained(m', Merged(blocks, k)) && SameLinks(m, m')
  {
    hide GetSize, GetFree, SetSize, SetFree, Merged;
    var b, c := blocks[k].addr, blocks[k + 1].addr;
    assert BlockIn(m, blocks, k) && BlockIn(m, blocks, k + 1);
    if k + 2 < |blocks| { assert BlockIn(m, blocks, k + 2); }
    HeaderParts(m[b].header, blocks[k].size + blocks[k + 1].size + BLOCK_SIZE, true);
    var m' := Joined(m, b, c);
    var r := Merged(blocks, k);
    MergedAt(blocks, k);
    forall j | 0 <= j < |r| ensures BlockIn(m', r, j) {
      var j' := if j <= k then j else j + 1;
      assert BlockIn(m, blocks, j');
      if j >= k && j + 1 < |r| { assert r[j + 1] == blocks[j + 1 + 1]; }
      if j > k + 1 { assert r[j - 1] == blocks[j - 1 + 1]; }
    }
  }

  /** Setting a block's free bit. */
  function Marked(m: Memory, b: nat, free: bool): Memory
    requires b in m
  {
    m[b := m[b].(header := SetFree(m[b].header, free))]
  }

  lemma MarkedChained(m: Memory, blocks: seq<Block>, i: nat, free: bool)
    requires Chained(m, blocks) && DistinctBlocks(blocks) && i < |blocks|
    ensures blocks[i].addr in m
    ensures Chained(Marked(m, blocks[i].addr, free), blocks[i := blocks[i].(free := free)])
    ensures SameLinks(m, Marked(m, blocks[i].addr, free))
  {
    hide GetSize, GetFree, SetFree;
    assert BlockIn(m, blocks, i);
    HeaderParts(m[blocks[i].addr].header, 0, free);
    var m', r := Marked(m, blocks[i].addr, free), blocks[i := blocks[i].(free := free)];
    forall j | 0 <= j < |r| ensures BlockIn(m', r, j) {
      assert BlockIn(m, blocks, j);
    }
  }

  // ---- The allocator --------------------------------------------------------------------------

  /** NewStaticAllocator: nothing for a nil region or one too small for the two headers. */
  method NewStaticAllocator(base: nat, size: nat) returns (a: Option<Allocator>)
    requires base + size < TOP
    ensures a.None? <==> base == 0 || size < HEADER_SIZE + BLOCK_SIZE
    ensures a.Some? ==> && a.value.Valid() && a.value.start == base + HEADER_SIZE && a.value.end == base + size
                        && a.value.pool == Fresh(a.value.start, size - HEADER_SIZE - BLOCK_SIZE)
                        && a.value.allocSize == HEADER_SIZE
  {
    if base == 0 || size < HEADER_SIZE + BLOCK_SIZE { return None; }
    var h := new Allocator(base, size);
    a := Some(h);
  }

  class Allocator {
    const start: nat
    const end: nat
    var mem: Memory
    var freeHead: nat
    var allocSize: nat
    ghost var pool: Pool

    ghost predicate Valid()
      reads this
    {
      && end < TOP
      && Inv(pool, start, end) && Aligned(pool.blocks, start)
      && Chained(mem, pool.blocks) && FreeChained(mem, pool.order, freeHead)
      && allocSize == HEADER_SIZE + Live(pool.blocks)
    }

    /** A region of size bytes at base, with room for the two headers. */
    constructor (base: nat, size: nat)
      requires size >= HEADER_SIZE + BLOCK_SIZE && base + size < TOP
      ensures Valid() && start == base + HEADER_SIZE && end == base + size
      ensures pool == Fresh(start, size - HEADER_SIZE - BLOCK_SIZE) && allocSize == HEADER_SIZE
    {
      var first, room := base + HEADER_SIZE, size - HEADER_SIZE - BLOCK_SIZE;
      start, end := first, base + size;
      mem := map[first := Cell(SetFree(SetSize(0, room), true), 0, 0, 0, 0)];
      freeHead, allocSize := first, HEADER_SIZE;
      pool := Fresh(first, room);
      HeaderParts(0, room, true);
      HeaderParts(SetSize(0, room), 0, true);
      LiveOne(Block(first, room, true));
      FreshInv(first, room);
    }

    method InsertFree(b: nat, ghost order: seq<nat>)
      requires FreeChained(mem, order, freeHead) && b in mem && b != 0 && b !in order
      modifies this`mem, this`freeHead
      ensures FreeChained(mem, [b] + order, freeHead) && SameBlocks(old(mem), mem)
    {
      InsertedChained(mem, order, freeHead, b);
      hide FreeChained, SameBlocks;
      mem := mem[b := mem[b].(freeNext := freeHead)];
      if freeHead != 0 {
        mem := mem[freeHead := mem[freeHead].(freePrev := b)];
      }
      mem := mem[b := mem[b].(freePrev := 0)];
      freeHead := b;
    }

    method RemoveFree(b: nat, ghost order: seq<nat>, ghost k: nat)
      requires FreeChained(mem, order, freeHead) && k < |order| && b == order[k]
      modifies this`mem, this`freeHead
      ensures FreeChained(mem, Without(order, b), freeHead) && SameBlocks(old(mem), mem)
    {
      RemovedChained(mem, order, freeHead, k);
      hide FreeChained, SameBlocks, Without;
      var next, prev := mem[b].freeNext, mem[b].freePrev;
      if prev != 0 {
        mem := mem[prev := mem[prev].(freeNext := next)];
      } else {
        freeHead := next;
      }
      if next != 0 {
        mem := mem[next := mem[next].(freePrev := prev)];
      }
      mem := mem[b := mem[b].(freeNext := 0, freePrev := 0)];
    }

    /** First fit along the free list. */
    method Find(size: nat) returns (b: nat, ghost i: nat, ghost k: nat)
      requires Valid()
      ensures b == 0 ==> forall j :: 0 <= j < |pool.blocks| && pool.blocks[j].free ==> pool.blocks[j].size < size
      ensures b != 0 ==>
                && i < |pool.blocks| && pool.blocks[i].addr == b && pool.blocks[i].free && size <= pool.blocks[i].size
                && k < |pool.order| && pool.order[k] == b
                && forall j :: 0 <= j < |pool.blocks| && pool.blocks[j].addr in pool.order[..k] ==>
                                 pool.blocks[j].size < size
    {
      hide Inv, Aligned, Live, GetSize, GetFree;
      b, i, k := freeHead, 0, 0;
      if pool.order != [] { ListedBlock(mem, pool, start, end, freeHead, 0); }
      while b != 0
        invariant k <= |pool.order| && (b == 0 ==> k == |pool.order|)
        invariant b == if k < |pool.order| then pool.order[k] else 0
        invariant forall j :: 0 <= j < |pool.blocks| && pool.blocks[j].addr in pool.order[..k] ==>
                                pool.blocks[j].size < size
        decreases |pool.order| - k
      {
        ListedBlock(mem, pool, start, end, freeHead, k);
        i := Position(mem, pool, start, end, freeHead, k);
        if size <= GetSize(mem[b].header) {
          return;
        }
        SmallSoFar(pool, start, end, i, k, size);
        b := mem[b].freeNext;
        k := k + 1;
        if k < |pool.order| { ListedBlock(mem, pool, start, end, freeHead, k); }
      }
      NoneListed(pool, start, end, size);
    }

    /** No block listed before the i-th could hold the size. */
    static ghost predicate FirstFit(p: Pool, i: nat, size: nat) {
      && i < |p.blocks|
      && exists k ::
           && 0 <= k < |p.order| && p.order[k] == p.blocks[i].addr
           && forall j :: 0 <= j < |p.blocks| && p.blocks[j].addr in p.order[..k] ==> p.blocks[j].size < size
    }

    /**
     * Fails exactly for size 0 and when no free block can hold the rounded size. Otherwise takes the first listed
     * block that fits; nothing else changes but what that block's remainder adds.
     */
    method Malloc(size: u64) returns (p: nat, ghost i: nat)
      requires Valid()
      modifies this
      ensures Valid()
      ensures p == 0 <==> size == 0 || forall j :: 0 <= j < |old(pool.blocks)| && old(pool.blocks)[j].free ==>
                                                     old(pool.blocks)[j].size < Rounded(size)
      ensures p == 0 ==> pool == old(pool) && allocSize == old(allocSize)
      ensures p != 0 ==>
                && i < |old(pool.blocks)| && old(pool.blocks)[i].free && Rounded(size) <= old(pool.blocks)[i].size
                && FirstFit(old(pool), i, Rounded(size))
                && pool == Taken(old(pool), i, Rounded(size))
                && i < |pool.blocks| && p == pool.blocks[i].addr + BLOCK_SIZE
                && allocSize == old(allocSize) + BLOCK_SIZE + pool.blocks[i].size
                && (size <= pool.blocks[i].size <==> size <= 0xffff_ffff_ffff_fff8)
    {
      hide Inv, Aligned, Live, GetSize, GetFree, SetSize, SetFree, Chained, FreeChained, Carved, Without, Rounded;
      i := 0;
      if size == 0 {
        return 0, 0;
      }
      var need := Rounded(size);
      RoundedSmall(size);
      var b, i', k := Find(need);
      i := i';
      if b == 0 {
        return 0, i;
      }
      Positive(pool, start, end, i);
      assert FirstFit(pool, i, need);
      TakenCovers(pool, start, end, i, size);
      Take(need, b, i, k);
      p := b + BLOCK_SIZE;
    }

    method Take(size: u64, b: nat, ghost i: nat, ghost k: nat)
      requires Valid() && Multiple8(size)
      requires i < |pool.blocks| && pool.blocks[i].addr == b && pool.blocks[i].free && size <= pool.blocks[i].size
      requires k < |pool.order| && pool.order[k] == b
      modifies this
      ensures Valid() && pool == Taken(old(pool), i, size)
      ensures i < |pool.blocks| && pool.blocks[i].addr == b
              && allocSize == old(allocSize) + BLOCK_SIZE + pool.blocks[i].size
    {
      hide Inv, Aligned, Live, GetSize, GetFree, SetSize, SetFree, Chained, FreeChained, Carved, Without, SameBlocks,
           SameLinks, Multiple8;
      ghost var p0 := pool;
      TakenInv(p0, start, end, i, size);
      CarvedAligned(p0.blocks, start, i, size);
      CarvedLive(p0.blocks, i, size);
      CarvedSteps(p0, start, end, i, k, size);
      BlockHeader(mem, pool.blocks, start, end, i);
      ghost var blocks, order, at := pool.blocks, pool.order, k;
      if GetSize(mem[b].header) - size > BLOCK_SIZE {
        SplitOff(size, b, i);
        blocks, order, at := Split(pool.blocks, i, size), [b + BLOCK_SIZE + size] + pool.order, k + 1;
      }
      ghost var m := mem;
      RemoveFree(b, order, at);
      SameBlocksChained(m, mem, blocks);
      m := mem;
      MarkedChained(m, blocks, i, false);
      mem := mem[b := mem[b].(header := SetFree(mem[b].header, false))];
      SameLinksChained(m, mem, Without(order, b), freeHead);
      HeaderOf(mem, blocks[i := blocks[i].(free := false)], i);
      allocSize := allocSize + BLOCK_SIZE + GetSize(mem[b].header);
      pool := Taken(p0, i, size);
    }

    /** Splits a block in two and lists the second. */
    method SplitOff(size: u64, b: nat, ghost i: nat)
      requires Valid() && i < |pool.blocks| && pool.blocks[i].addr == b && pool.blocks[i].free
      requires pool.blocks[i].size - size > BLOCK_SIZE
      modifies this`mem, this`freeHead
      ensures Chained(mem, Split(pool.blocks, i, size))
      ensures FreeChained(mem, [b + BLOCK_SIZE + size] + pool.order, freeHead)
    {
      hide Inv, Aligned, Live, GetSize, GetFree, SetSize, SetFree, Chained, FreeChained, SameBlocks, SameLinks, Split;
      SplitReady(mem, pool, start, end, i, size);
      NewUnlisted(pool, start, end, i, size);
      ghost var m := mem;
      var nb := b + BLOCK_SIZE + size;
      var g := Garbage(mem, nb);
      var next := mem[b].next;
      mem := mem[nb := Cell(SetFree(SetSize(g.header, GetSize(mem[b].header) - size - BLOCK_SIZE), true), next, b,
                            g.freeNext, g.freePrev)];
      if next != 0 {
        mem := mem[next := mem[next].(prev := nb)];
      }
      mem := mem[b := mem[b].(next := nb)];
      ghost var m1 := mem;
      SameLinksChained(m, m1, pool.order, freeHead);
      InsertFree(nb, pool.order);
      ghost var m2 := mem;
      ResizedSame(m1, m2, b, size);
      mem := mem[b := mem[b].(header := SetSize(mem[b].header, size))];
      SameBlocksChained(Resized(m1, b, size), mem, Split(pool.blocks, i, size));
      SameLinksChained(m2, mem, [nb] + pool.order, freeHead);
    }

    /** Takes other off the free list and joins block c to the block b before it. */
    method Join(b: nat, c: nat, other: nat, ghost p: Pool, ghost k: nat)
      requires Tiles(p.blocks, start, end) && end < TOP && k + 1 < |p.blocks|
      requires b == p.blocks[k].addr && c == p.blocks[k + 1].addr && p.blocks[k].free && p.blocks[k + 1].free
      requires Chained(mem, p.blocks) && FreeChained(mem, p.order, freeHead) && other in p.order
      modifies this`mem, this`freeHead
      ensures Chained(mem, Merged(p.blocks, k)) && FreeChained(mem, Without(p.order, other), freeHead)
    {
      hide Tiles, GetSize, GetFree, SetSize, Chained, FreeChained, SameBlocks, SameLinks, Without, Merged;
      ghost var m := mem;
      ghost var at :| 0 <= at < |p.order| && p.order[at] == other;
      RemoveFree(other, p.order, at);
      SameBlocksChained(m, mem, p.blocks);
      JoinReady(mem, p.blocks, start, end, k);
      m := mem;
      mem := mem[b := mem[b].(header := SetSize(mem[b].header,
                                                GetSize(mem[b].header) + GetSize(mem[c].header) + BLOCK_SIZE))];
      mem := mem[b := mem[b].(next := mem[c].next)];
      if mem[c].next != 0 {
        mem := mem[mem[c].next := mem[mem[c].next].(prev := b)];
      }
      SameLinksChained(m, mem, Without(p.order, other), freeHead);
    }

    /**
     * Releases the block whose payload is p and joins it with its free neighbours. Refuses nil and a block that is
     * free already.
     */
    method Free(p: nat, ghost i: nat) returns (ok: bool)
      requires Valid() && (p != 0 ==> i < |pool.blocks| && p == pool.blocks[i].addr + BLOCK_SIZE)
      modifies this
      ensures Valid()
      ensures ok <==> p != 0 && !old(pool.blocks)[i].free
      ensures !ok ==> pool == old(pool) && allocSize == old(allocSize)
      ensures ok ==> pool == Freed(old(pool), i) && allocSize == old(allocSize) - BLOCK_SIZE - old(pool.blocks)[i].size
    {
      hide Inv, Aligned, Live, GetSize, GetFree, SetFree, Chained, FreeChained, Released, Coalesced, SameLinks,
           Multiple8;
      if p == 0 {
        return false;
      }
      var b := p - BLOCK_SIZE;
      ghost var p0 := pool;
      InvTiles(p0, start, end);
      BlockHeader(mem, pool.blocks, start, end, i);
      if GetFree(mem[b].header) {
        return false;
      }
      FreedInv(p0, start, end, i);
      FreedAligned(p0, start, i);
      FreedLive(p0, i);
      ReleasedFirst(p0, start, end, i);
      ghost var m := mem;
      MarkedChained(m, p0.blocks, i, true);
      mem := mem[b := mem[b].(header := SetFree(mem[b].header, true))];
      SameLinksChained(m, mem, p0.order, freeHead);
      ghost var p1 := p0.(blocks := p0.blocks[i := p0.blocks[i].(free := true)]);
      HeaderOf(mem, p1.blocks, i);
      LiveHolds(p0.blocks, i);
      allocSize := allocSize - BLOCK_SIZE - GetSize(mem[b].header);
      Coalesce(b, i, p1);
      pool := Freed(p0, i);
      ok := true;
    }

    /** The merging part of Free, for a block released but not yet listed. */
    method Coalesce(b: nat, ghost i: nat, ghost p: Pool)
      requires Released(p.blocks, p.order, i, start, end) && end < TOP && b == p.blocks[i].addr
      requires Chained(mem, p.blocks) && FreeChained(mem, p.order, freeHead)
      modifies this`mem, this`freeHead
      ensures Chained(mem, Coalesced(p, i).blocks) && FreeChained(mem, Coalesced(p, i).order, freeHead)
    {
      hide GetSize, GetFree, Chained, FreeChained, Released, Without, Merged;
      var b' := b;
      ghost var q := p;
      Neighbours(mem, q, i, start, end);
      while mem[b].next != 0 && GetFree(mem[mem[b].next].header)
        invariant Released(q.blocks, q.order, i, start, end)
        invariant Chained(mem, q.blocks) && FreeChained(mem, q.order, freeHead)
        invariant i < |q.blocks| && q.blocks[i].addr == b && b in mem && (mem[b].next != 0 ==> mem[b].next in mem)
        invariant q == p || (q == MergedNext(p, i) && (i + 1 < |q.blocks| ==> !q.blocks[i + 1].free))
        decreases |q.blocks|
      {
        Neighbours(mem, q, i, start, end);
        MergeReleased(q.blocks, q.order, i, i, start, end);
        MergedAt(q.blocks, i);
        Join(b, mem[b].next, mem[b].next, q, i);
        q := MergedNext(q, i);
        Neighbours(mem, q, i, start, end);
      }
      Neighbours(mem, q, i, start, end);
      if mem[b].prev != 0 && GetFree(mem[mem[b].prev].header) {
        MergeReleased(q.blocks, q.order, i, i - 1, start, end);
        MergedAt(q.blocks, i - 1);
        b' := mem[b].prev;
        Join(b', b, b', q, i - 1);
        q := Pool(Merged(q.blocks, i - 1), Without(q.order, q.blocks[i - 1].addr));
        Listable(mem, q, i - 1, start, end);
      } else {
        Listable(mem, q, i, start, end);
      }
      ghost var m := mem;
      InsertFree(b', q.order);
      SameBlocksChained(m, mem, q.blocks);
    }
  }

  lemma ListedBlock(m: Memory, p: Pool, start: nat, end: nat, head: nat, k: nat)
    requires Inv(p, start, end) && Chained(m, p.blocks) && FreeChained(m, p.order, head) && k < |p.order|
    ensures p.order[k] in m && p.order[k] != 0
    ensures m[p.order[k]].freeNext == if k + 1 < |p.order| then p.order[k + 1] else 0
  {
    assert LinkIn(m, p.order, k);
  }

  /** Where the k-th listed block lies. */
  lemma Position(m: Memory, p: Pool, start: nat, end: nat, head: nat, k: nat) returns (i: nat)
    requires Inv(p, start, end) && Chained(m, p.blocks) && FreeChained(m, p.order, head) && k < |p.order|
    ensures i < |p.blocks| && p.blocks[i].addr == p.order[k] && p.blocks[i].free
    ensures p.order[k] in m && GetSize(m[p.order[k]].header) == p.blocks[i].size
  {
    assert p.order[k] in p.order;
    assert FreeAt(p.blocks, p.order[k]);
    i :| 0 <= i < |p.blocks| && p.blocks[i].addr == p.order[k] && p.blocks[i].free;
    assert BlockIn(m, p.blocks, i);
  }

  lemma SmallSoFar(p: Pool, start: nat, end: nat, i: nat, k: nat, size: nat)
    requires Inv(p, start, end) && k < |p.order| && i < |p.blocks| && p.blocks[i].addr == p.order[k]
             && p.blocks[i].size < size
    requires forall j :: 0 <= j < |p.blocks| && p.blocks[j].addr in p.order[..k] ==> p.blocks[j].size < size
    ensures forall j :: 0 <= j < |p.blocks| && p.blocks[j].addr in p.order[..k + 1] ==> p.blocks[j].size < size
  {
    hide Lists, NoAdjacentFree;
    assert p.order[..k + 1] == p.order[..k] + [p.order[k]];
    forall j | 0 <= j < |p.blocks| && p.blocks[j].addr in p.order[..k + 1] ensures p.blocks[j].size < size {
      if p.blocks[j].addr == p.order[k] { SameBlock(p.blocks, start, end, i, j); }
    }
  }

  lemma NoneListed(p: Pool, start: nat, end: nat, size: nat)
    requires Inv(p, start, end)
    requires forall j :: 0 <= j < |p.blocks| && p.blocks[j].addr in p.order[..|p.order|] ==> p.blocks[j].size < size
    ensures forall j :: 0 <= j < |p.blocks| && p.blocks[j].free ==> p.blocks[j].size < size
  {
    hide Tiles, NoAdjacentFree;
    assert p.order[..|p.order|] == p.order;
    forall j | 0 <= j < |p.blocks| && p.blocks[j].free ensures p.blocks[j].addr in p.order {
      PositiveAddress(p.blocks, start, end, j);
      assert FreeAt(p.blocks, p.blocks[j].addr);
    }
  }

  lemma PositiveAddress(blocks: seq<Block>, start: nat, end: nat, j: nat)
    requires Tiles(blocks, start, end) && j < |blocks|
    ensures blocks[j].addr > 0
  {
    FromStart(blocks, start, end, j);
  }

  lemma RoundedSmall(size: u64)
    ensures Rounded(size) < 0x1_0000_0000_0000_0000 && Multiple8(Rounded(size))
  {
    RoundedCovers(size);
  }

  /** The block taken holds the request, unless rounding the request wrapped to nothing. */
  lemma TakenCovers(p: Pool, start: nat, end: nat, i: nat, size: u64)
    requires Inv(p, start, end) && end < TOP && i < |p.blocks| && Rounded(size) <= p.blocks[i].size
    ensures i < |Taken(p, i, Rounded(size)).blocks|
    ensures size <= Taken(p, i, Rounded(size)).blocks[i].size <==> size <= 0xffff_ffff_ffff_fff8
  {
    hide Without, Multiple8;
    RoundedCovers(size);
    hide Rounded;
    ToEnd(p.blocks, start, end, i);
    CarvedAt(p.blocks, i, Rounded(size));
  }

  lemma Positive(p: Pool, start: nat, end: nat, i: nat)
    requires Inv(p, start, end) && i < |p.blocks|
    ensures p.blocks[i].addr > 0
  {
    PositiveAddress(p.blocks, start, end, i);
  }

  lemma BlockHeader(m: Memory, blocks: seq<Block>, start: nat, end: nat, i: nat)
    requires Chained(m, blocks) && Tiles(blocks, start, end) && end < TOP && i < |blocks|
    ensures DistinctBlocks(blocks) && BlockBounds(blocks)
    ensures blocks[i].addr in m && GetSize(m[blocks[i].addr].header) == blocks[i].size
            && GetFree(m[blocks[i].addr].header) == blocks[i].free
  {
    TilesDistinct(blocks, start, end);
    HeaderOf(m, blocks, i);
  }

  lemma HeaderOf(m: Memory, blocks: seq<Block>, i: nat)
    requires Chained(m, blocks) && i < |blocks|
    ensures blocks[i].addr in m && GetSize(m[blocks[i].addr].header) == blocks[i].size
            && GetFree(m[blocks[i].addr].header) == blocks[i].free
  {
    assert BlockIn(m, blocks, i);
  }

  lemma SplitReady(m: Memory, p: Pool, start: nat, end: nat, i: nat, size: u64)
    requires Inv(p, start, end) && Chained(m, p.blocks) && end < TOP
    requires i < |p.blocks| && p.blocks[i].free && p.blocks[i].size - size > BLOCK_SIZE
    ensures var b := p.blocks[i].addr;
            && b in m && b > 0 && GetSize(m[b].header) == p.blocks[i].size && (m[b].next != 0 ==> m[b].next in m)
            && var m' := LinkedNew(m, b, size);
               b in m' && Chained(Resized(m', b, size), Split(p.blocks, i, size)) && SameLinks(m, m')
               && b + BLOCK_SIZE + size in m'
  {
    hide Lists, NoAdjacentFree, Split, Chained, SameLinks;
    TilesDistinct(p.blocks, start, end);
    CarvedNew(p.blocks, start, end, i, size);
    SplitChained(m, p.blocks, i, size);
    PositiveAddress(p.blocks, start, end, i);
  }

  lemma ResizedSame(m: Memory, m': Memory, b: nat, size: u64)
    requires SameBlocks(m, m') && b in m
    ensures b in m' && SameBlocks(Resized(m, b, size), Resized(m', b, size)) && SameLinks(m', Resized(m', b, size))
  {
    hide SetSize;
  }

  /** Splitting and then marking is carving. */
  lemma CarvedSteps(p: Pool, start: nat, end: nat, i: nat, k: nat, size: nat)
    requires Inv(p, start, end) && i < |p.blocks| && size <= p.blocks[i].size && p.blocks[i].free && end < TOP
    ensures p.blocks[i].size - size > BLOCK_SIZE ==>
              && Carved(p.blocks, i, size) == Split(p.blocks, i, size)[i := Split(p.blocks, i, size)[i].(free := false)]
              && Split(p.blocks, i, size)[i].addr == p.blocks[i].addr
              && DistinctBlocks(Split(p.blocks, i, size))
    ensures p.blocks[i].size - size <= BLOCK_SIZE ==>
              Carved(p.blocks, i, size) == p.blocks[i := p.blocks[i].(free := false)]
    ensures Tiles(p.blocks, start, end) && DistinctBlocks(p.blocks)
  {
    hide Lists, NoAdjacentFree, Tiles;
    TilesDistinct(p.blocks, start, end);
    if p.blocks[i].size - size > BLOCK_SIZE {
      var r := Split(p.blocks, i, size);
      assert Carved(p.blocks, i, size) == r[i := r[i].(free := false)];
      CarvedTiles(p.blocks, start, end, i, size);
      TilesDistinct(Carved(p.blocks, i, size), start, end);
      forall x, y | 0 <= x < y < |r| ensures r[x].addr != r[y].addr {
        assert r[x].addr == Carved(p.blocks, i, size)[x].addr;
        assert r[y].addr == Carved(p.blocks, i, size)[y].addr;
      }
    }
  }

  lemma InvTiles(p: Pool, start: nat, end: nat)
    requires Inv(p, start, end)
    ensures Tiles(p.blocks, start, end)
  {
  }

  lemma JoinReady(m: Memory, blocks: seq<Block>, start: nat, end: nat, k: nat)
    requires Tiles(blocks, start, end) && end < TOP && Chained(m, blocks) && k + 1 < |blocks| && blocks[k].free
    ensures var b, c := blocks[k].addr, blocks[k + 1].addr;
            && b in m && c in m && b != c && (m[c].next != 0 ==> m[c].next in m)
            && GetSize(m[b].header) + GetSize(m[c].header) + BLOCK_SIZE < TOP
            && Chained(Joined(m, b, c), Merged(blocks, k)) && SameLinks(m, Joined(m, b, c))
  {
    hide Chained, Merged, SameLinks, GetSize;
    TilesDistinct(blocks, start, end);
    Addresses(blocks, start, end, k, k + 1);
    JoinedChained(m, blocks, k);
  }

  lemma {:induction false} LiveHolds(blocks: seq<Block>, i: nat)
    requires i < |blocks| && !blocks[i].free
    ensures Live(blocks) >= BLOCK_SIZE + blocks[i].size
  {
    if i > 0 { LiveHolds(blocks[1..], i - 1); }
  }

  /** The neighbours that the links of block i show. */
  lemma Neighbours(m: Memory, p: Pool, i: nat, start: nat, end: nat)
    requires Released(p.blocks, p.order, i, start, end) && Chained(m, p.blocks)
    ensures Tiles(p.blocks, start, end) && i < |p.blocks| && p.blocks[i].free && p.blocks[i].addr in m
    ensures var c := m[p.blocks[i].addr];
            && (c.next != 0 <==> i + 1 < |p.blocks|)
            && (c.next != 0 ==> c.next == p.blocks[i + 1].addr && c.next in m
                                && GetFree(m[c.next].header) == p.blocks[i + 1].free)
            && (c.prev != 0 <==> i > 0)
            && (c.prev != 0 ==> c.prev == p.blocks[i - 1].addr && c.prev in m
                                && GetFree(m[c.prev].header) == p.blocks[i - 1].free)
  {
    hide Lists, GetFree, GetSize;
    assert BlockIn(m, p.blocks, i);
    if i + 1 < |p.blocks| { assert BlockIn(m, p.blocks, i + 1); PositiveAddress(p.blocks, start, end, i + 1); }
    if i > 0 { assert BlockIn(m, p.blocks, i - 1); PositiveAddress(p.blocks, start, end, i - 1); }
  }

  lemma Listable(m: Memory, p: Pool, i: nat, start: nat, end: nat)
    requires Released(p.blocks, p.order, i, start, end) && Chained(m, p.blocks)
    ensures p.blocks[i].addr in m && p.blocks[i].addr != 0 && p.blocks[i].addr !in p.order
  {
    hide GetFree, GetSize;
    assert BlockIn(m, p.blocks, i);
    PositiveAddress(p.blocks, start, end, i);
  }
}
