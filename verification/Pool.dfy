/** The pool allocator: a bump allocator over a chain of blocks that also keeps its own list nodes
    inside the blocks. */
module Pool {
  const ALIGNMENT: nat := 16       // MM_POOL_ALIGNMENT
  const BLOCK_SIZE: nat := 16384   // MM_DEFAULT_BLOCK_SIZE
  const MAX_SMALL: nat := 4095     // pool->max
  const HEADER: nat := 24          // sizeof(mpool_block_t)
  const LARGE_NODE: nat := 16      // sizeof(mpool_large_t)
  const CLEANUP_NODE: nat := 24    // sizeof(mpool_free_func_t)
  const ADDRESSES: nat := 0x1_0000_0000_0000_0000

  /** MM_ALIGN_PTR */
  function AlignUp(p: nat): (r: nat)
    ensures p <= r < p + ALIGNMENT && r % ALIGNMENT == 0
  {
    (p + ALIGNMENT - 1) / ALIGNMENT * ALIGNMENT
  }

  /** Aligning does not pass an aligned address. */
  lemma AlignUpLeast(p: nat, e: nat)
    requires e % ALIGNMENT == 0 && p <= e
    ensures AlignUp(p) <= e
  {
  }

  /** (size_t)(a - b): a negative difference wraps around. */
  function Minus(a: nat, b: nat): int {
    if b <= a then a - b else a - b + ADDRESSES
  }

  datatype Block = Block(start: nat, avail: nat, end: nat)

  /** Who uses a piece of a block. */
  datatype User = Client | LargeList | CleanupList | CleanupData

  datatype Piece = Piece(user: User, lo: nat, hi: nat)

  datatype LargeNode = LargeNode(at: nat, alloc: nat, size: nat)

  datatype Cleanup = Cleanup(at: nat, func: nat, data: nat)

  predicate Disjoint(a: nat, b: nat, c: nat, d: nat) {
    b <= c || d <= a
  }

  // ----- one block

  ghost predicate BlockOk(b: Block) {
    && b.start > 0 && b.start % ALIGNMENT == 0 && b.end == b.start + BLOCK_SIZE
    && b.start + HEADER <= b.avail <= b.end
  }

  ghost predicate Inside(p: Piece, b: Block) {
    b.start + HEADER <= p.lo <= p.hi <= b.avail
  }

  /** Where the next piece of the block would start. */
  function Place(b: Block, align: bool): nat {
    if align then AlignUp(b.avail) else b.avail
  }

  predicate Fits(b: Block, size: nat, align: bool) {
    Minus(b.end, Place(b, align)) >= size
  }

  /** The place never passes the end, so the unsigned subtraction is exact. */
  lemma PlaceInBlock(b: Block, size: nat, align: bool)
    requires BlockOk(b)
    ensures b.avail <= Place(b, align) <= b.end
    ensures Fits(b, size, align) <==> Place(b, align) + size <= b.end
  {
    assert b.end % ALIGNMENT == 0;
    AlignUpLeast(b.avail, b.end);
  }

  // ----- the chain of blocks and what lies in it

  ghost predicate ChainOk(blocks: seq<Block>, current: nat) {
    && current < |blocks|
    && (forall i :: 0 <= i < |blocks| ==> BlockOk(blocks[i]))
    && (forall i, j :: 0 <= i < j < |blocks| ==>
        Disjoint(blocks[i].start, blocks[i].end, blocks[j].start, blocks[j].end))
  }

  ghost predicate Housed(p: Piece, blocks: seq<Block>) {
    exists i :: 0 <= i < |blocks| && Inside(p, blocks[i])
  }

  /** The pieces handed out since the last reset lie inside blocks and do not overlap. */
  ghost predicate PiecesOk(pieces: seq<Piece>, blocks: seq<Block>) {
    && (forall k :: 0 <= k < |pieces| ==> Housed(pieces[k], blocks))
    && (forall k, l :: 0 <= k < l < |pieces| ==> Disjoint(pieces[k].lo, pieces[k].hi, pieces[l].lo, pieces[l].hi))
  }

  /** The large chunks do not overlap each other or the blocks, and their nodes are pieces. */
  ghost predicate LargeOk(large: seq<LargeNode>, pieces: seq<Piece>, blocks: seq<Block>) {
    && (forall k :: 0 <= k < |large| ==> Piece(LargeList, large[k].at, large[k].at + LARGE_NODE) in pieces)
    && (forall k, i :: 0 <= k < |large| && 0 <= i < |blocks| ==>
          Disjoint(large[k].alloc, large[k].alloc + large[k].size, blocks[i].start, blocks[i].end))
    && (forall k, l :: 0 <= k < l < |large| ==>
          Disjoint(large[k].alloc, large[k].alloc + large[k].size, large[l].alloc, large[l].alloc + large[l].size))
  }

  ghost predicate CleanupsOk(cleanups: seq<Cleanup>, pieces: seq<Piece>) {
    forall k :: 0 <= k < |cleanups| ==> Piece(CleanupList, cleanups[k].at, cleanups[k].at + CLEANUP_NODE) in pieces
  }

  /** What malloc and posix_memalign promise of a new chunk. */
  predicate FreshChunk(at: nat, size: nat, blocks: seq<Block>, large: seq<LargeNode>) {
    && at > 0
    && (forall i :: 0 <= i < |blocks| ==> Disjoint(at, at + size, blocks[i].start, blocks[i].end))
    && (forall k :: 0 <= k < |large| ==> Disjoint(at, at + size, large[k].alloc, large[k].alloc + large[k].size))
  }

  /** Bumping block i makes room for one more piece that overlaps none before it. */
  lemma BumpKeepsPieces(blocks: seq<Block>, current: nat, pieces: seq<Piece>, i: nat, p: Piece)
    requires ChainOk(blocks, current) && PiecesOk(pieces, blocks) && i < |blocks|
    requires blocks[i].avail <= p.lo <= p.hi <= blocks[i].end
    ensures var blocks' := blocks[i := blocks[i].(avail := p.hi)];
      ChainOk(blocks', current) && PiecesOk(pieces + [p], blocks')
  {
    var blocks' := blocks[i := blocks[i].(avail := p.hi)];
    forall k | 0 <= k < |pieces|
      ensures Housed(pieces[k], blocks') && Disjoint(pieces[k].lo, pieces[k].hi, p.lo, p.hi)
    {
      var j :| 0 <= j < |blocks| && Inside(pieces[k], blocks[j]);
      assert Inside(pieces[k], blocks'[j]);
      if j != i {
        var a, b := if i < j then i else j, if i < j then j else i;
        assert Disjoint(blocks[a].start, blocks[a].end, blocks[b].start, blocks[b].end);
      }
    }
    assert Inside(p, blocks'[i]);
  }

  lemma AppendKeepsPieces(blocks: seq<Block>, current: nat, pieces: seq<Piece>, b: Block, large: seq<LargeNode>)
    requires ChainOk(blocks, current) && PiecesOk(pieces, blocks) && BlockOk(b)
    requires FreshChunk(b.start, BLOCK_SIZE, blocks, large)
    ensures ChainOk(blocks + [b], |blocks|) && PiecesOk(pieces, blocks + [b])
  {
    var blocks' := blocks + [b];
    forall k | 0 <= k < |pieces|
      ensures Housed(pieces[k], blocks')
    {
      var j :| 0 <= j < |blocks| && Inside(pieces[k], blocks[j]);
      assert blocks'[j] == blocks[j] && Inside(pieces[k], blocks'[j]);
    }
  }

  /** The first block from `from` on with room, or the number of blocks. */
  function FirstFit(blocks: seq<Block>, from: nat, size: nat, align: bool): (i: nat)
    requires from <= |blocks|
    ensures from <= i <= |blocks| && (i < |blocks| ==> Fits(blocks[i], size, align))
    ensures forall j :: from <= j < i ==> !Fits(blocks[j], size, align)
    decreases |blocks| - from
  {
    if from == |blocks| || Fits(blocks[from], size, align) then from else FirstFit(blocks, from + 1, size, align)
  }

  /** The largest request that fits an empty block. */
  function Capacity(align: bool): nat {
    BLOCK_SIZE - if align then AlignUp(HEADER) else HEADER
  }

  function NewPlace(start: nat, align: bool): nat {
    if align then AlignUp(start + HEADER) else start + HEADER
  }

  lemma NewPlaceAt(start: nat, align: bool)
    requires start % ALIGNMENT == 0
    ensures NewPlace(start, align) == start + BLOCK_SIZE - Capacity(align)
  {
    var k := start / ALIGNMENT;
    assert start == ALIGNMENT * k;
    assert AlignUp(start + HEADER) == start + 32;
    assert AlignUp(HEADER) == 32;
  }

  /** A request over the capacity fits nowhere. */
  lemma TooLargeFitsNowhere(b: Block, size: nat, align: bool)
    requires BlockOk(b) && size > Capacity(align)
    ensures !Fits(b, size, align)
  {
    PlaceInBlock(b, size, align);
    NewPlaceAt(b.start, align);
  }

  /** What is in use: the pieces and the large chunks. */
  datatype Region = Region(lo: nat, hi: nat)

  function Regions(pieces: seq<Piece>, large: seq<LargeNode>): seq<Region> {
    seq(|pieces| + |large|, i requires 0 <= i < |pieces| + |large| =>
      if i < |pieces| then Region(pieces[i].lo, pieces[i].hi)
      else Region(large[i - |pieces|].alloc, large[i - |pieces|].alloc + large[i - |pieces|].size))
  }

  ghost predicate PoolOk(blocks: seq<Block>, current: nat, pieces: seq<Piece>, large: seq<LargeNode>,
          cleanups: seq<Cleanup>) {
    && ChainOk(blocks, current) && PiecesOk(pieces, blocks)
    && LargeOk(large, pieces, blocks) && CleanupsOk(cleanups, pieces)
  }

  /** No two regions in use overlap: neither two of clients, nor one of a client and a list node. */
  lemma RegionsDisjoint(blocks: seq<Block>, current: nat, pieces: seq<Piece>, large: seq<LargeNode>,
        cleanups: seq<Cleanup>, i: nat, j: nat)
    requires PoolOk(blocks, current, pieces, large, cleanups) && i < j < |Regions(pieces, large)|
    ensures var r := Regions(pieces, large); Disjoint(r[i].lo, r[i].hi, r[j].lo, r[j].hi)
  {
    if i < |pieces| <= j {
      assert Housed(pieces[i], blocks);
      var b :| 0 <= b < |blocks| && Inside(pieces[i], blocks[b]);
      var n := large[j - |pieces|];
      assert Disjoint(n.alloc, n.alloc + n.size, blocks[b].start, blocks[b].end);
      assert BlockOk(blocks[b]);
    } else if |pieces| <= i {
      var n, m := large[i - |pieces|], large[j - |pieces|];
      assert Disjoint(n.alloc, n.alloc + n.size, m.alloc, m.alloc + m.size);
    }
  }

  lemma BumpKeepsPool(blocks: seq<Block>, current: nat, pieces: seq<Piece>, large: seq<LargeNode>,
        cleanups: seq<Cleanup>, i: nat, p: Piece)
    requires PoolOk(blocks, current, pieces, large, cleanups) && i < |blocks|
    requires blocks[i].avail <= p.lo <= p.hi <= blocks[i].end
    ensures PoolOk(blocks[i := blocks[i].(avail := p.hi)], current, pieces + [p], large, cleanups)
  {
    BumpKeepsPieces(blocks, current, pieces, i, p);
  }

  lemma AppendKeepsPool(blocks: seq<Block>, current: nat, pieces: seq<Piece>, large: seq<LargeNode>,
        cleanups: seq<Cleanup>, b: Block)
    requires PoolOk(blocks, current, pieces, large, cleanups) && BlockOk(b)
    requires FreshChunk(b.start, BLOCK_SIZE, blocks, large)
    ensures PoolOk(blocks + [b], |blocks|, pieces, large, cleanups)
  {
    AppendKeepsPieces(blocks, current, pieces, b, large);
    var blocks' := blocks + [b];
    forall k, i | 0 <= k < |large| && 0 <= i < |blocks'|
      ensures Disjoint(large[k].alloc, large[k].alloc + large[k].size, blocks'[i].start, blocks'[i].end)
    {
      if i < |blocks| { assert blocks'[i] == blocks[i]; }
    }
  }

  /** Serving a request from block i. */
  lemma BumpDone(blocks: seq<Block>, current: nat, pieces: seq<Piece>, large: seq<LargeNode>, cleanups: seq<Cleanup>,
                 i: nat, size: nat, align: bool, user: User, mem: nat)
    requires i < |blocks| && Fits(blocks[i], size, align)
    ensures var m := Place(blocks[i], align);
      var blocks' := blocks[i := blocks[i].(avail := m + size)];
      && Extended(blocks, blocks', mem)
      && (PoolOk(blocks, current, pieces, large, cleanups) ==>
            size <= Capacity(align) && PoolOk(blocks', current, pieces + [Piece(user, m, m + size)], large, cleanups))
  {
    if PoolOk(blocks, current, pieces, large, cleanups) {
      var m := Place(blocks[i], align);
      PlaceInBlock(blocks[i], size, align);
      BumpKeepsPool(blocks, current, pieces, large, cleanups, i, Piece(user, m, m + size));
      if size > Capacity(align) { TooLargeFitsNowhere(blocks[i], size, align); }
    }
  }

  /** Serving a request from a new block: sound exactly if it is within the capacity. */
  lemma AppendDone(blocks: seq<Block>, current: nat, pieces: seq<Piece>, large: seq<LargeNode>, cleanups: seq<Cleanup>,
                   size: nat, align: bool, user: User, mem: nat, m: nat, blocks': seq<Block>, pieces': seq<Piece>)
    requires FreshChunk(mem, BLOCK_SIZE, blocks, large) && mem % ALIGNMENT == 0 && m == NewPlace(mem, align)
    requires blocks' == blocks + [Block(mem, m + size, mem + BLOCK_SIZE)]
    requires pieces' == pieces + [Piece(user, m, m + size)]
    ensures Extended(blocks, blocks', mem)
    ensures PoolOk(blocks, current, pieces, large, cleanups) ==>
      (size <= Capacity(align) <==> PoolOk(blocks', |blocks|, pieces', large, cleanups))
    ensures size > Capacity(align) ==> Overrun(blocks')
  {
    var b, empty := Block(mem, m + size, mem + BLOCK_SIZE), Block(mem, m, mem + BLOCK_SIZE);
    NewPlaceAt(mem, align);
    if size > Capacity(align) {
      assert blocks'[|blocks|].avail > blocks'[|blocks|].end;
      OverrunIsUnsound(blocks', |blocks|);
    } else if PoolOk(blocks, current, pieces, large, cleanups) {
      AppendKeepsPool(blocks, current, pieces, large, cleanups, empty);
      BumpKeepsPool(blocks + [empty], |blocks|, pieces, large, cleanups, |blocks|, Piece(user, m, m + size));
      assert (blocks + [empty])[|blocks| := b] == blocks';
    }
  }

  /** Node k is the first whose chunk starts at p. */
  ghost predicate FirstAt(large: seq<LargeNode>, p: nat, k: nat) {
    k < |large| && large[k].alloc == p && forall l :: 0 <= l < k ==> large[l].alloc != p
  }

  /** An empty block. */
  function FirstBlock(start: nat): Block {
    Block(start, AlignUp(start + HEADER), start + BLOCK_SIZE)
  }

  /** An empty block has room for all that a block can hold, 16352 bytes. */
  lemma EmptyHasRoom(start: nat)
    requires start > 0 && start % ALIGNMENT == 0
    ensures Capacity(true) == 16352 && Capacity(false) == 16360 && BlockOk(FirstBlock(start))
    ensures forall size :: Fits(FirstBlock(start), size, true) <==> size <= 16352
  {
    NewPlaceAt(start, true);
    forall size: nat
      ensures Fits(FirstBlock(start), size, true) <==> size <= 16352
    {
      PlaceInBlock(FirstBlock(start), size, true);
    }
  }

  /** The blocks stay where they are, nothing in them is given back, and at most the block at mem is new. */
  ghost predicate Extended(before: seq<Block>, after: seq<Block>, mem: nat) {
    && |before| <= |after| <= |before| + 1
    && (forall i :: 0 <= i < |before| ==>
          after[i].start == before[i].start && after[i].end == before[i].end && after[i].avail >= before[i].avail)
    && (|after| > |before| ==> after[|before|].start == mem && after[|before|].end == mem + BLOCK_SIZE)
  }

  /** The calls are those of the cleanups in the list that have a function, each once and in the order of
      the list: f tells the position of each. */
  ghost predicate CalledInOrder(calls: seq<Cleanup>, list: seq<Cleanup>, f: seq<nat>) {
    && |f| == |calls|
    && (forall k :: 0 <= k < |f| ==> f[k] < |list| && calls[k] == list[f[k]])
    && (forall j, k :: 0 <= j < k < |f| ==> f[j] < f[k])
    && (forall i: nat :: i in f <==> i < |list| && list[i].func != 0)
  }

  lemma CalledStep(calls: seq<Cleanup>, list: seq<Cleanup>, k: nat, f: seq<nat>)
    requires k < |list| && CalledInOrder(calls, list[..k], f)
    ensures if list[k].func != 0 then CalledInOrder(calls + [list[k]], list[..k + 1], f + [k])
            else CalledInOrder(calls, list[..k + 1], f)
  {
    var l, l' := list[..k], list[..k + 1];
    assert forall i :: 0 <= i < k ==> l'[i] == l[i];
    assert forall j :: 0 <= j < |f| ==> f[j] < k;
  }

  /** Some block has been bumped past its end. */
  ghost predicate Overrun(blocks: seq<Block>) {
    exists k :: 0 <= k < |blocks| && blocks[k].avail > blocks[k].end
  }

  /** A chunk apart from the blocks, and from the one that may be added, is apart from all. */
  lemma StaysFresh(at: nat, size: nat, before: seq<Block>, after: seq<Block>, large: seq<LargeNode>, mem: nat)
    requires FreshChunk(at, size, before, large) && Disjoint(at, at + size, mem, mem + BLOCK_SIZE)
    requires Extended(before, after, mem)
    ensures FreshChunk(at, size, after, large)
  {
  }

  lemma StaysOverrun(before: seq<Block>, after: seq<Block>, mem: nat)
    requires Overrun(before) && Extended(before, after, mem)
    ensures Overrun(after)
  {
    var k :| 0 <= k < |before| && before[k].avail > before[k].end;
    assert after[k].avail > after[k].end;
  }

  lemma OverrunIsUnsound(blocks: seq<Block>, current: nat)
    requires Overrun(blocks)
    ensures !ChainOk(blocks, current)
  {
    var k :| 0 <= k < |blocks| && blocks[k].avail > blocks[k].end;
    assert !BlockOk(blocks[k]);
  }

  lemma ConsLarge(n: LargeNode, blocks: seq<Block>, current: nat, pieces: seq<Piece>, large: seq<LargeNode>,
        cleanups: seq<Cleanup>)
    requires PoolOk(blocks, current, pieces, large, cleanups) && Piece(LargeList, n.at, n.at + LARGE_NODE) in pieces
    requires FreshChunk(n.alloc, n.size, blocks, large)
    ensures PoolOk(blocks, current, pieces, [n] + large, cleanups)
  {
  }

  /** The node at lg, the newest piece, records the chunk. */
  lemma RecordLarge(chunk: nat, size: nat, before: seq<Block>, blocks: seq<Block>, mem: nat, lg: nat,
        had: seq<Piece>, pieces: seq<Piece>, large: seq<LargeNode>, cleanups: seq<Cleanup>, current: nat)
    requires PoolOk(blocks, current, pieces, large, cleanups) && pieces == had + [Piece(LargeList, lg, lg + LARGE_NODE)]
    requires FreshChunk(chunk, size, before, large) && Disjoint(chunk, chunk + size, mem, mem + BLOCK_SIZE)
    requires Extended(before, blocks, mem)
    ensures PoolOk(blocks, current, pieces, [LargeNode(lg, chunk, size)] + large, cleanups)
    ensures |pieces| == |had| + 1 && had <= pieces && pieces[|had|].lo == lg
  {
    assert pieces[|had|] == Piece(LargeList, lg, lg + LARGE_NODE);
    StaysFresh(chunk, size, before, blocks, large, mem);
    ConsLarge(LargeNode(lg, chunk, size), blocks, current, pieces, large, cleanups);
  }

  lemma UnlinkLarge(k: nat, large: seq<LargeNode>, pieces: seq<Piece>, blocks: seq<Block>)
    requires k < |large| && LargeOk(large, pieces, blocks)
    ensures LargeOk(large[..k] + large[k + 1..], pieces, blocks)
  {
    var r := large[..k] + large[k + 1..];
    assert forall i :: 0 <= i < |r| ==> r[i] == large[if i < k then i else i + 1];
  }

  lemma EmptiedChain(before: seq<Block>, current: nat, after: seq<Block>)
    requires ChainOk(before, current) && |after| == |before|
    requires forall i :: 0 <= i < |after| ==> after[i] == FirstBlock(before[i].start)
    ensures ChainOk(after, 0)
    ensures forall i, size :: 0 <= i < |after| && size <= 16352 ==> Fits(after[i], size, true)
  {
    forall i | 0 <= i < |after|
      ensures BlockOk(after[i]) && forall size :: size <= 16352 ==> Fits(after[i], size, true)
    {
      assert BlockOk(before[i]);
      EmptyHasRoom(before[i].start);
    }
    assert forall i :: 0 <= i < |after| ==> after[i].start == before[i].start && BlockOk(before[i]);
  }

  // ----- the pool

  class Pool {
    var blocks: seq<Block>        // the chain from pool->blocks
    var current: nat              // the position of pool->current in it
    var large: seq<LargeNode>     // pool->large, first node first
    var cleanups: seq<Cleanup>    // pool->free_list, first node first
    ghost var pieces: seq<Piece>  // what has been handed out since the last reset

    ghost predicate Valid()
      reads this
    {
      PoolOk(blocks, current, pieces, large, cleanups)
    }

    /** mpool_new; `mem` is what posix_memalign returned. */
    constructor (mem: nat)
      requires mem > 0 && mem % ALIGNMENT == 0
      ensures Valid() && pieces == [] && large == [] && cleanups == [] && blocks == [FirstBlock(mem)]
    {
      blocks := [Block(mem, AlignUp(mem + HEADER), mem + BLOCK_SIZE)];
      current, large, cleanups, pieces := 0, [], [], [];
      new;
      NewPlaceAt(mem, true);
    }

    /** alloc_small and, from its end, alloc_block.  `mem` is the block posix_memalign would return.
        The piece lies within its block, and the pool stays sound, exactly if the request is within
        the capacity of a block. */
    method AllocSmall(size: nat, align: bool, mem: nat, ghost user: User) returns (m: nat)
      requires current < |blocks| && FreshChunk(mem, BLOCK_SIZE, blocks, large) && mem % ALIGNMENT == 0
      modifies this`blocks, this`current, this`pieces
      ensures old(Valid()) ==> (Valid() <==> size <= Capacity(align))
      ensures Extended(old(blocks), blocks, mem) && current < |blocks|
      ensures old(Valid()) && size > Capacity(align) ==> Overrun(blocks)
      ensures pieces == old(pieces) + [Piece(user, m, m + size)]
      ensures align ==> m % ALIGNMENT == 0
      ensures var i := FirstFit(old(blocks), old(current), size, align);
        if i < |old(blocks)| then
          && m == Place(old(blocks)[i], align) && current == old(current)
          && blocks == old(blocks)[i := old(blocks)[i].(avail := m + size)]
        else
          && m == NewPlace(mem, align) && current == |old(blocks)|
          && blocks == old(blocks) + [Block(mem, m + size, mem + BLOCK_SIZE)]
    {
      var blk := current;
      while blk < |blocks|
        invariant current <= blk <= |blocks|
        invariant FirstFit(blocks, blk, size, align) == FirstFit(blocks, current, size, align)
      {
        m := blocks[blk].avail;
        if align { m := AlignUp(m); }
        if Minus(blocks[blk].end, m) >= size {
          Bump(blk, m, size, align, mem, user);
          return;
        }
        blk := blk + 1;
      }
      m := AllocBlock(size, align, mem, user);
    }

    /** The piece comes from block blk. */
    method Bump(blk: nat, m: nat, size: nat, ghost align: bool, ghost mem: nat, ghost user: User)
      requires current < |blocks| && blk < |blocks| && Fits(blocks[blk], size, align) && m == Place(blocks[blk], align)
      modifies this`blocks, this`pieces
      ensures old(Valid()) ==> size <= Capacity(align) && Valid()
      ensures Extended(old(blocks), blocks, mem) && |blocks| == |old(blocks)|
      ensures blocks == old(blocks)[blk := old(blocks)[blk].(avail := m + size)]
      ensures pieces == old(pieces) + [Piece(user, m, m + size)]
    {
      BumpDone(blocks, current, pieces, large, cleanups, blk, size, align, user, mem);
      blocks := blocks[blk := blocks[blk].(avail := m + size)];
      pieces := pieces + [Piece(user, m, m + size)];
    }

    /** alloc_block */
    method AllocBlock(size: nat, align: bool, mem: nat, ghost user: User) returns (m: nat)
      requires current < |blocks| && FreshChunk(mem, BLOCK_SIZE, blocks, large) && mem % ALIGNMENT == 0
      modifies this`blocks, this`current, this`pieces
      ensures old(Valid()) ==> (Valid() <==> size <= Capacity(align))
      ensures Extended(old(blocks), blocks, mem) && current < |blocks|
      ensures old(Valid()) && size > Capacity(align) ==> Overrun(blocks)
      ensures m == NewPlace(mem, align) && current == |old(blocks)|
      ensures blocks == old(blocks) + [Block(mem, m + size, mem + BLOCK_SIZE)]
      ensures pieces == old(pieces) + [Piece(user, m, m + size)]
    {
      m := mem + HEADER;
      if align { m := AlignUp(m); }
      ghost var pieces' := pieces + [Piece(user, m, m + size)];
      var blocks' := blocks + [Block(mem, m + size, mem + BLOCK_SIZE)];
      AppendDone(blocks, current, pieces, large, cleanups, size, align, user, mem, m, blocks', pieces');
      current := |blocks|;
      blocks, pieces := blocks', pieces';
    }

    /** mpool_alloc.  `chunk` is what malloc would return for a large request. */
    method Alloc(nbytes: nat, mem: nat, chunk: nat) returns (p: nat)
      requires Valid() && FreshChunk(mem, BLOCK_SIZE, blocks, large) && mem % ALIGNMENT == 0
      requires nbytes > MAX_SMALL ==>
        FreshChunk(chunk, nbytes, blocks, large) && Disjoint(chunk, chunk + nbytes, mem, mem + BLOCK_SIZE)
      modifies this`blocks, this`current, this`pieces, this`large
      ensures Valid() && cleanups == old(cleanups)
      ensures if nbytes <= MAX_SMALL then
                && p % ALIGNMENT == 0 && large == old(large)
                && pieces == old(pieces) + [Piece(Client, p, p + if nbytes == 0 then 1 else nbytes)]
              else
                && p == chunk && |pieces| == |old(pieces)| + 1 && old(pieces) <= pieces
                && large == [LargeNode(pieces[|old(pieces)|].lo, p, nbytes)] + old(large)
    {
      var n := if nbytes == 0 then 1 else nbytes;
      if n <= MAX_SMALL {
        p := AllocSmall(n, true, mem, Client);
      } else {
        p := AllocLarge(n, mem, chunk);
      }
    }

    /** mpool_nalloc: the same without alignment. */
    method Nalloc(nbytes: nat, mem: nat, chunk: nat) returns (p: nat)
      requires Valid() && FreshChunk(mem, BLOCK_SIZE, blocks, large) && mem % ALIGNMENT == 0
      requires nbytes > MAX_SMALL ==>
        FreshChunk(chunk, nbytes, blocks, large) && Disjoint(chunk, chunk + nbytes, mem, mem + BLOCK_SIZE)
      modifies this`blocks, this`current, this`pieces, this`large
      ensures Valid() && cleanups == old(cleanups)
      ensures if nbytes <= MAX_SMALL then
                large == old(large) && pieces == old(pieces) + [Piece(Client, p, p + if nbytes == 0 then 1 else nbytes)]
              else
                && p == chunk && |pieces| == |old(pieces)| + 1 && old(pieces) <= pieces
                && large == [LargeNode(pieces[|old(pieces)|].lo, p, nbytes)] + old(large)
    {
      var n := if nbytes == 0 then 1 else nbytes;
      if n <= MAX_SMALL {
        p := AllocSmall(n, false, mem, Client);
      } else {
        p := AllocLarge(n, mem, chunk);
      }
    }

    /** alloc_large: a chunk of its own, and a node in a block to remember it. */
    method AllocLarge(size: nat, mem: nat, chunk: nat) returns (p: nat)
      requires Valid() && FreshChunk(mem, BLOCK_SIZE, blocks, large) && mem % ALIGNMENT == 0
      requires FreshChunk(chunk, size, blocks, large) && Disjoint(chunk, chunk + size, mem, mem + BLOCK_SIZE)
      modifies this`blocks, this`current, this`pieces, this`large
      ensures Valid() && p == chunk
      ensures |pieces| == |old(pieces)| + 1 && old(pieces) <= pieces
      ensures large == [LargeNode(pieces[|old(pieces)|].lo, p, size)] + old(large)
    {
      p := chunk;
      var lg := AllocSmall(LARGE_NODE, true, mem, LargeList);
      RecordLarge(chunk, size, old(blocks), blocks, mem, lg, old(pieces), pieces, large, cleanups, current);
      large := [LargeNode(lg, p, size)] + large;
    }

    /** mpool_pfree: unlink and free the first large chunk at p. */
    method PFree(p: nat) returns (r: int)
      requires Valid()
      modifies this`large
      ensures Valid()
      ensures r == 0 <==> exists k :: 0 <= k < |old(large)| && old(large)[k].alloc == p
      ensures r == 0 || r == -1
      ensures r == -1 ==> large == old(large)
      ensures r == 0 ==> exists k: nat :: FirstAt(old(large), p, k) && large == old(large)[..k] + old(large)[k + 1..]
    {
      var k := 0;
      while k < |large|
        invariant 0 <= k <= |large| && forall l :: 0 <= l < k ==> large[l].alloc != p
      {
        if large[k].alloc == p {
          UnlinkLarge(k, large, pieces, blocks);
          assert FirstAt(old(large), p, k);
          large := large[..k] + large[k + 1..];
          return 0;
        }
        k := k + 1;
      }
      r := -1;
    }

    /** mpool_cleanup_add: first the data, then the node.  The size of the data is not checked: the
        pool stays sound exactly if the data fits an empty block. */
    method CleanupAdd(size: nat, mem: nat, mem2: nat) returns (c: nat)
      requires Valid() && FreshChunk(mem, BLOCK_SIZE, blocks, large) && mem % ALIGNMENT == 0
      requires FreshChunk(mem2, BLOCK_SIZE, blocks, large) && mem2 % ALIGNMENT == 0
      requires Disjoint(mem, mem + BLOCK_SIZE, mem2, mem2 + BLOCK_SIZE)
      modifies this`blocks, this`current, this`pieces, this`cleanups
      ensures Valid() <==> size <= Capacity(true)
      ensures large == old(large) && |cleanups| == |old(cleanups)| + 1 && cleanups[1..] == old(cleanups)
      ensures cleanups[0].at == c && cleanups[0].func == 0 && cleanups[0].data % ALIGNMENT == 0
      ensures size == 0 ==> cleanups[0].data == 0
      ensures pieces == old(pieces)
        + (if size > 0 then [Piece(CleanupData, cleanups[0].data, cleanups[0].data + size)] else [])
        + [Piece(CleanupList, c, c + CLEANUP_NODE)]
    {
      var data := 0;
      if size > 0 {
        data := AddData(size, mem, mem2);
      }
      c := AddNode(data, mem2);
    }

    /** The data of a cleanup; the other chunk is still free for its node. */
    method AddData(size: nat, mem: nat, ghost mem2: nat) returns (data: nat)
      requires Valid() && FreshChunk(mem, BLOCK_SIZE, blocks, large) && mem % ALIGNMENT == 0
      requires FreshChunk(mem2, BLOCK_SIZE, blocks, large) && Disjoint(mem, mem + BLOCK_SIZE, mem2, mem2 + BLOCK_SIZE)
      modifies this`blocks, this`current, this`pieces
      ensures Valid() <==> size <= Capacity(true)
      ensures size > Capacity(true) ==> Overrun(blocks)
      ensures current < |blocks| && FreshChunk(mem2, BLOCK_SIZE, blocks, large)
      ensures data % ALIGNMENT == 0 && pieces == old(pieces) + [Piece(CleanupData, data, data + size)]
    {
      data := AllocSmall(size, true, mem, CleanupData);
      StaysFresh(mem2, BLOCK_SIZE, old(blocks), blocks, large, mem);
    }

    /** The node of a cleanup.  A block that was overrun before stays overrun. */
    method AddNode(data: nat, mem: nat) returns (c: nat)
      requires current < |blocks| && FreshChunk(mem, BLOCK_SIZE, blocks, large) && mem % ALIGNMENT == 0
      modifies this`blocks, this`current, this`pieces, this`cleanups
      ensures old(Valid()) ==> Valid()
      ensures old(Overrun(blocks)) ==> !Valid()
      ensures cleanups == [Cleanup(c, 0, data)] + old(cleanups)
      ensures pieces == old(pieces) + [Piece(CleanupList, c, c + CLEANUP_NODE)]
    {
      c := AllocSmall(CLEANUP_NODE, true, mem, CleanupList);
      if old(Overrun(blocks)) {
        StaysOverrun(old(blocks), blocks, mem);
        OverrunIsUnsound(blocks, current);
      }
      if old(Valid()) { assert pieces[|pieces| - 1] == Piece(CleanupList, c, c + CLEANUP_NODE); }
      cleanups := [Cleanup(c, 0, data)] + cleanups;
    }

    /** The caller of mpool_cleanup_add sets the function of the newest node. */
    method SetFunction(func: nat)
      requires cleanups != []
      modifies this`cleanups
      ensures cleanups == [old(cleanups)[0].(func := func)] + old(cleanups)[1..]
      ensures old(Valid()) ==> Valid()
    {
      cleanups := [cleanups[0].(func := func)] + cleanups[1..];
    }

    /** run_cleanup_unlocked: every cleanup with a function runs once, in the order of the list. */
    method RunCleanups() returns (calls: seq<Cleanup>, ghost f: seq<nat>)
      modifies this`cleanups
      ensures CalledInOrder(calls, old(cleanups), f) && cleanups == []
      ensures old(Valid()) ==> Valid()
    {
      calls, f := [], [];
      var k := 0;
      while k < |cleanups|
        invariant 0 <= k <= |cleanups| && cleanups == old(cleanups)
        invariant CalledInOrder(calls, cleanups[..k], f)
      {
        CalledStep(calls, cleanups, k, f);
        if cleanups[k].func != 0 {
          calls := calls + [cleanups[k]];
          f := f + [k];
        }
        k := k + 1;
      }
      assert cleanups[..k] == cleanups;
      cleanups := [];
    }

    /** mpool_reset: the cleanups run, the large chunks are freed, every block is empty again. */
    method Reset() returns (calls: seq<Cleanup>, freed: seq<nat>, ghost f: seq<nat>)
      requires Valid()
      modifies this
      ensures Valid() && pieces == [] && large == [] && cleanups == [] && current == 0
      ensures CalledInOrder(calls, old(cleanups), f)
      ensures |freed| == |old(large)| && forall k :: 0 <= k < |freed| ==> freed[k] == old(large)[k].alloc
      ensures |blocks| == |old(blocks)|
      ensures forall i :: 0 <= i < |blocks| ==> blocks[i] == FirstBlock(old(blocks)[i].start)
      ensures forall i, size :: 0 <= i < |blocks| && size <= 16352 ==> Fits(blocks[i], size, true)
    {
      calls, f := RunCleanups();
      freed := [];
      var k := 0;
      while k < |large|
        invariant 0 <= k <= |large| && large == old(large) && |freed| == k
        invariant forall l :: 0 <= l < k ==> freed[l] == old(large)[l].alloc
      {
        freed := freed + [large[k].alloc];
        k := k + 1;
      }
      large, pieces := [], [];
      EmptyBlocks();
      current := 0;
      EmptiedChain(old(blocks), old(current), blocks);
    }

    /** The loop of mpool_reset over the blocks. */
    method EmptyBlocks()
      requires forall j :: 0 <= j < |blocks| ==> BlockOk(blocks[j])
      modifies this`blocks
      ensures |blocks| == |old(blocks)|
      ensures forall j :: 0 <= j < |blocks| ==> blocks[j] == FirstBlock(old(blocks)[j].start)
    {
      var i := 0;
      while i < |blocks|
        invariant 0 <= i <= |blocks| == |old(blocks)|
        invariant forall j :: 0 <= j < |blocks| ==>
          blocks[j] == if j < i then FirstBlock(old(blocks)[j].start) else old(blocks)[j]
      {
        assert BlockOk(old(blocks)[i]);
        NewPlaceAt(blocks[i].start, true);
        blocks := blocks[i := blocks[i].(avail := AlignUp(blocks[i].start + HEADER))];
        i := i + 1;
      }
    }
  }
}
