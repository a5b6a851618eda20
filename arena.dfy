/**
  The bump allocator (src/memory/arena.c): a list of blocks, newest first,
  each handing out consecutive regions of its data area.

  Memory contents and addresses are not modelled: a block is its (used, cap)
  pair, and a region is named by its block, its offset and its size.
  Whether `malloc` succeeds is a parameter.
 */
module Arena {

  import opened Wrappers

  const BLOCK_SIZE: nat := 4096

  /** `-7ull`, the mask the source applies after adding 7 (not `~7ull`). */
  const ALIGN_MASK: bv64 := 0xFFFF_FFFF_FFFF_FFF9

  /** The size `arena_alloc` actually reserves: `(size + 7) & -7ull` in 64-bit unsigned arithmetic. */
  function RoundSize(size: bv64): bv64 {
    (size + 7) & ALIGN_MASK
  }

  /** Without wrap-around the rounded size is strictly above the request and at most 7 above it. */
  lemma RoundSizeBounds(size: bv64)
    requires size <= 0xFFFF_FFFF_FFFF_FFF8
    ensures size < RoundSize(size) <= size + 7
  {
  }

  /** The mask clears bits 1 and 2 only, so the result need not be a multiple of 8. */
  lemma RoundSizeNotAligned()
    ensures RoundSize(8) == 9 && RoundSize(1) == 8 && RoundSize(0) == 1
    ensures RoundSize(8) % 8 != 0
  {
  }

  /** Near the top of the range the addition wraps and the reserved size falls below the request. */
  lemma RoundSizeWraps()
    ensures RoundSize(0xFFFF_FFFF_FFFF_FFFF) == 0
  {
  }

  /** `arena_block_t` without its data. */
  datatype Block = Block(used: nat, cap: nat)

  /** A region handed out by `arena_alloc`: block number (oldest block is 0), offset in its data, reserved size. */
  datatype Region = Region(block: nat, offset: nat, size: nat)

  /** Every block keeps its used bytes within its capacity. */
  predicate BlocksValid(blocks: seq<Block>) {
    forall k :: 0 <= k < |blocks| ==> blocks[k].used <= blocks[k].cap
  }

  /** `arena_alloc` after rounding, as a function of the block list (head first) and the rounded size `sz`: the region and the new list. */
  function AllocSpec(blocks: seq<Block>, sz: nat, mallocOk: bool): (Option<Region>, seq<Block>) {
    if |blocks| == 0 || blocks[0].used + sz > blocks[0].cap then
      if !mallocOk then (None, blocks)
      else
        var cap := if sz > BLOCK_SIZE then sz else BLOCK_SIZE;
        (Some(Region(|blocks|, 0, sz)), [Block(sz, cap)] + blocks)
    else
      (Some(Region(|blocks| - 1, blocks[0].used, sz)), [blocks[0].(used := blocks[0].used + sz)] + blocks[1..])
  }

  /**
    What one allocation does: it fails and changes nothing only when a new
    block is needed and `malloc` fails; otherwise the region starts at the
    head's old `used` (0 in a fresh block), fits in the head block, and every
    block but the head is kept.
   */
  lemma AllocShape(blocks: seq<Block>, sz: nat, mallocOk: bool)
    requires BlocksValid(blocks)
    ensures var (p, blocks') := AllocSpec(blocks, sz, mallocOk);
      var fits := |blocks| > 0 && blocks[0].used + sz <= blocks[0].cap;
      BlocksValid(blocks')
      && (p.None? <==> !fits && !mallocOk)
      && (p.None? ==> blocks' == blocks)
      && (p.Some? && fits ==>
           |blocks'| == |blocks| && blocks'[1..] == blocks[1..]
           && p.value == Region(|blocks| - 1, blocks[0].used, sz) && blocks'[0].used == blocks[0].used + sz
           && blocks'[0].cap == blocks[0].cap)
      && (p.Some? && !fits ==>
           blocks'[1..] == blocks && p.value == Region(|blocks|, 0, sz)
           && blocks'[0] == Block(sz, if sz > BLOCK_SIZE then sz else BLOCK_SIZE))
  {
  }

  /** Two allocations in a row that land in the same block do not overlap: the second starts where the first ends. */
  lemma SuccessiveAllocationsDisjoint(blocks: seq<Block>, s1: nat, s2: nat, ok1: bool, ok2: bool)
    requires BlocksValid(blocks)
    ensures var (p1, b1) := AllocSpec(blocks, s1, ok1);
      var (p2, _) := AllocSpec(b1, s2, ok2);
      p1.Some? && p2.Some? && p1.value.block == p2.value.block ==>
        p1.value.offset + p1.value.size <= p2.value.offset
  {
    AllocShape(blocks, s1, ok1);
    var (p1, b1) := AllocSpec(blocks, s1, ok1);
    AllocShape(b1, s2, ok2);
  }

  /** The number of characters `arena_strdup(a, s, n)` copies: all of s when n < 0 or n > strlen(s), otherwise n. */
  function StrdupLength(s: string, n: int): (m: nat)
    ensures m <= |s|
    ensures n < 0 || n > |s| ==> m == |s|
    ensures 0 <= n <= |s| ==> m == n
  {
    if n > |s| || n < 0 then |s| else n
  }

  /** The text `arena_strdup` produces. */
  function StrdupText(s: string, n: int): (t: string)
    ensures t == s[..StrdupLength(s, n)]
  {
    s[..StrdupLength(s, n)]
  }

  /** The bytes `arena_strdup` reserves: the copied length plus the terminator, rounded. */
  function StrdupReserve(s: string, n: int): nat
    requires StrdupLength(s, n) + 1 < 0x1_0000_0000_0000_0000
  {
    RoundSize((StrdupLength(s, n) + 1) as bv64) as nat
  }

  /** `arena_t`: the block list, head first. */
  class Arena {
    var blocks: seq<Block>

    predicate Valid()
      reads this
    {
      BlocksValid(blocks)
    }

    /** `arena_init`: no blocks. */
    constructor ()
      ensures blocks == [] && Valid()
    {
      blocks := [];
    }

    /** `arena_alloc`: round the size, then reserve it. */
    method Alloc(size: bv64, mallocOk: bool) returns (p: Option<Region>)
      requires Valid()
      modifies this
      ensures (p, blocks) == AllocSpec(old(blocks), RoundSize(size) as nat, mallocOk) && Valid()
    {
      var sz := RoundSize(size) as nat;
      p := Reserve(sz, mallocOk);
    }

    /** The rest of `arena_alloc` once the size is rounded: open a new head block if needed, then bump its `used`. */
    method Reserve(sz: nat, mallocOk: bool) returns (p: Option<Region>)
      requires Valid()
      modifies this
      ensures (p, blocks) == AllocSpec(old(blocks), sz, mallocOk) && Valid()
    {
      var bs := blocks;
      if |bs| == 0 || bs[0].used + sz > bs[0].cap {
        var cap := if sz > BLOCK_SIZE then sz else BLOCK_SIZE;
        if !mallocOk {
          return None;
        }
        bs := [Block(0, cap)] + bs;
      }
      var b := bs[0];
      p := Some(Region(|bs| - 1, b.used, sz));
      blocks := [b.(used := b.used + sz)] + bs[1..];
      AllocShape(old(blocks), sz, mallocOk);
    }

    /**
      `arena_strdup`: reserve the copied length plus one for the terminator and
      copy. The source writes through the result without a check, so a failed
      allocation has no defined outcome; here it returns None.
     */
    method Strdup(s: string, n: int, mallocOk: bool) returns (r: Option<(string, Region)>)
      requires Valid()
      requires StrdupLength(s, n) + 1 < 0x1_0000_0000_0000_0000
      modifies this
      ensures Valid()
      ensures var (p, blocks') := AllocSpec(old(blocks), StrdupReserve(s, n), mallocOk);
        blocks == blocks' && (r.Some? <==> p.Some?)
        && (r.Some? ==> r.value == (StrdupText(s, n), p.value))
    {
      var mem := StrdupLength(s, n);
      var p := Alloc((mem + 1) as bv64, mallocOk);
      assert RoundSize((mem + 1) as bv64) as nat == StrdupReserve(s, n);
      if p.None? {
        return None;
      }
      r := Some((s[..mem], p.value));
    }

    /** `arena_destroy`: free the blocks from the head on; `freed` lists them in that order. */
    method Destroy() returns (freed: seq<Block>)
      modifies this
      ensures blocks == [] && freed == old(blocks)
    {
      freed := [];
      while |blocks| > 0
        invariant freed + blocks == old(blocks)
        decreases |blocks|
      {
        freed := freed + [blocks[0]];
        blocks := blocks[1..];
      }
    }
  }
}
