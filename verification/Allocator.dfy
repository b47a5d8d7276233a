/** The libc allocator over the words of its heap. Positions are word indices from
    the program's initial break `lo`, so the byte address of position i is
    lo + 4 * i, and a position is 8-aligned when it is even. */
module Allocator {
  import opened Basics
  import opened Blocks
  import opened Tags

  const WSIZE: nat := 4
  const DSIZE: nat := 8
  const CHUNK_SIZE: nat := 4096
  const MAX_HEAP: nat := 0x4000_0000           // __max_addr
  const USER_TOP: nat := 0x8000_0000_0000

  // ---------------------------------------------------------------- request sizes

  /** malloc's adjusted size, in 64-bit arithmetic. */
  function AdjustedSize(size: nat): nat {
    if size <= DSIZE then 2 * DSIZE else (size + DSIZE + DSIZE - 1) % TWO64 / 8 * 8
  }

  /** A block size that serves a request: whole double words, with room for the
      request and the two tags, and never less than two double words. */
  predicate Serves(bytes: nat, size: nat) {
    bytes % 8 == 0 && 16 <= bytes && size + 8 <= bytes
  }

  /** The adjusted size is the least one that serves, for every 64-bit request but
      the last fifteen, whose sum wraps to one or no double word. */
  lemma AdjustedSizeCovers(size: nat)
    requires size < TWO64
    ensures AdjustedSize(size) % 8 == 0
    ensures size + 8 <= AdjustedSize(size) <==> size + 15 < TWO64
    ensures size + 15 < TWO64 ==>
              Serves(AdjustedSize(size), size) && forall n :: Serves(n, size) ==> AdjustedSize(size) <= n
    ensures size + 15 >= TWO64 ==> AdjustedSize(size) == if size + 7 < TWO64 then 0 else 8
  {
  }

  /** A free block that serves a request, and one that malloc takes for it. */
  ghost predicate Room(b: Block, size: nat) { !b.used && Serves(8 * b.dwords, size) }
  ghost predicate Fits(b: Block, size: nat) { !b.used && (size + 15 < TWO64 ==> Room(b, size)) }
  ghost predicate HasRoom(bs: seq<Block>, size: nat) { exists j :: 0 <= j < |bs| && Room(bs[j], size) }
  ghost predicate HasFit(bs: seq<Block>, size: nat) { exists j :: 0 <= j < |bs| && Fits(bs[j], size) }

  /** malloc takes the blocks of the adjusted size or more. */
  lemma FitsExactly(b: Block, size: nat)
    requires 0 < size < TWO64 && b.dwords > 0
    ensures Fits(b, size) <==> !b.used && AdjustedSize(size) <= 8 * b.dwords
  {
    hide AdjustedSize;
    AdjustedSizeCovers(size);
  }

  /** So first fit finds a block exactly when one serves, and the first such. */
  lemma FitIsRoom(bs: seq<Block>, size: nat)
    requires 0 < size < TWO64 && forall j :: 0 <= j < |bs| ==> bs[j].dwords > 0
    ensures FirstFit(bs, AdjustedSize(size)).Some? <==> HasFit(bs, size)
    ensures HasFit(bs, size) ==> FirstRoom(bs, size, FirstFit(bs, AdjustedSize(size)).value)
  {
    hide AdjustedSize, FirstFit, Fits;
    forall j | 0 <= j < |bs| ensures Fits(bs[j], size) <==> !bs[j].used && AdjustedSize(size) <= 8 * bs[j].dwords {
      FitsExactly(bs[j], size);
    }
  }

  ghost predicate FirstRoom(bs: seq<Block>, size: nat, k: nat) {
    k < |bs| && Fits(bs[k], size) && forall j :: 0 <= j < k ==> !Fits(bs[j], size)
  }

  /** Bytes that malloc asks extend_heap for: it passes bytes where words are
      meant, so the heap grows by four times the request. */
  function GrowthBytes(asize: nat): nat {
    4 * (if asize > CHUNK_SIZE then asize else CHUNK_SIZE)
  }

  /** A quarter of it is the least size that serves the request and is a chunk or
      more. */
  lemma GrowthIsLeast(size: nat)
    requires size + 15 < TWO64
    ensures GrowthBytes(AdjustedSize(size)) % 4 == 0
    ensures var n := GrowthBytes(AdjustedSize(size)) / 4;
            Serves(n, size) && n >= CHUNK_SIZE && forall k: nat :: Serves(k, size) && k >= CHUNK_SIZE ==> n <= k
  {
    hide AdjustedSize;
    AdjustedSizeCovers(size);
  }

  /** What is left of them in a size_t: the increment that sbrk gets. */
  function Increment(asize: nat): (w: nat)
    ensures w < TWO64
  {
    GrowthBytes(asize) % TWO64
  }

  /** sbrk's test of the new break, in 64-bit arithmetic. */
  predicate Refused(brk: nat, bytes: nat) {
    (brk + bytes) % TWO64 > MAX_HEAP
  }

  /** What sbrk gives: NULL, the old break, or the old break although the new one
      wrapped around to below it. */
  datatype Break = NoMemory | At(pos: nat) | Lowered

  /** What malloc gives: NULL, a block, the break itself after an empty growth, an
      answer computed from a lowered break, or a fault. */
  datatype MallocResult = Null | Ptr(pos: nat) | Stray(pos: nat) | Broken | Crash

  class Heap {
    const lo: nat
    var mem: seq<nat>
    var initialized: bool
    var heapListp: nat
    ghost var blocks: seq<Block>

    constructor (start: nat)
      requires start % 8 == 0 && start < USER_TOP
      ensures lo == start && mem == [] && !initialized && Valid()
    {
      lo := start;
      mem := [];
      initialized := false;
      heapListp := 0;
      blocks := [];
    }

    /** Where the first block's header lies. */
    ghost function First(): nat
      reads this
    {
      heapListp + 1
    }

    /** The program break. */
    function Brk(): nat
      reads this
    {
      lo + 4 * |mem|
    }

    ghost predicate Bounded()
      reads this
    {
      lo % 8 == 0 && lo < USER_TOP && |mem| % 2 == 0 && (mem != [] ==> Brk() <= MAX_HEAP)
    }

    /** Prologue, the blocks and the epilogue fill the heap word for word. */
    ghost predicate Encoded()
      reads this
    {
      && Bounded() && heapListp % 2 == 0 && heapListp >= 2
      && |mem| == heapListp + 2 + 2 * Total(blocks)
      && mem[heapListp - 1] == 9 && mem[heapListp] == 9
      && Region(mem, First(), blocks)
      && mem[|mem| - 1] == 1
    }

    ghost predicate Valid()
      reads this
    {
      Bounded() && (initialized ==> Encoded() && WellFormed(blocks) && blocks != [])
    }

    /** The words of all payloads in use. */
    ghost function LiveNow(): set<nat>
      reads this
    {
      if initialized then Live(First(), blocks) else {}
    }

    lemma LiveFits()
      requires Valid()
      ensures forall i :: i in LiveNow() ==> i < |mem|
    {
      forall i | i in LiveNow() ensures i < |mem| { LiveInside(First(), blocks, i); }
    }

    /** The position of block k's payload. */
    ghost function Start(k: nat): nat
      requires k <= |blocks|
      reads this
    {
      First() + 2 * Total(blocks[..k]) + 1
    }

    // -------------------------------------------------------------- words

    /** PUT stores an unsigned int. */
    method Put(i: nat, val: nat)
      requires i < |mem|
      modifies this`mem
      ensures val < TWO32 ==> mem == old(mem)[i := val]
      ensures |mem| == |old(mem)|
    {
      mem := mem[i := val % TWO32];
    }

    /** sbrk: fails above the limit, else moves the break over zeroed words; the
        sum is taken modulo 2^64. */
    method Sbrk(bytes: nat) returns (r: Break)
      requires Bounded() && bytes % 8 == 0 && bytes < TWO64
      modifies this`mem
      ensures r == NoMemory <==> Refused(old(Brk()), bytes)
      ensures r.At? <==> old(Brk()) + bytes <= MAX_HEAP
      ensures !r.At? ==> mem == old(mem)
      ensures r.At? ==> r.pos == |old(mem)| && Bounded()
      ensures r.At? ==> mem == old(mem) + seq(bytes / 4, _ => 0)
    {
      NewBreak(Brk(), bytes);
      if (lo + 4 * |mem| + bytes) % TWO64 > MAX_HEAP { return NoMemory; }
      if lo + 4 * |mem| + bytes >= TWO64 { return Lowered; }
      r := At(|mem|);
      mem := mem + seq(bytes / 4, _ => 0);
    }

    // -------------------------------------------------------------- coalescing

    /** Reading the tags of block k and of its two neighbours. */
    lemma TagsAround(k: nat)
      requires Encoded() && k < |blocks|
      ensures var bp, d := Start(k), blocks[k].dwords;
              && d > 0 && 2 * d + bp <= |mem| && bp % 2 == 0 && bp >= 4
              && mem[bp - 1] == Tag(blocks[k]) && mem[bp + 2 * d - 2] == Tag(blocks[k])
              && mem[bp + 2 * d - 1] == (if k + 1 < |blocks| then Tag(blocks[k + 1]) else 1)
              && 8 * d < TWO32
      ensures k + 1 < |blocks| ==> Start(k + 1) == Start(k) + 2 * blocks[k].dwords
      ensures k + 1 == |blocks| ==> Start(k) + 2 * blocks[k].dwords == |mem|
    {
      BlockAt(mem, First(), blocks, k);
      if k + 1 < |blocks| {
        BlockAt(mem, First(), blocks, k + 1);
      } else {
        assert blocks[..k + 1] == blocks;
      }
    }

    lemma TagsBefore(k: nat)
      requires Encoded() && k < |blocks|
      ensures 4 <= Start(k) < |mem|
      ensures k == 0 ==> mem[Start(k) - 2] == 9 && mem[Start(k) - 3] == 9
      ensures k > 0 ==> var d := blocks[k - 1].dwords;
                && d > 0 && Start(k) == Start(k - 1) + 2 * d && Start(k - 1) >= 4
                && mem[Start(k) - 2] == Tag(blocks[k - 1]) && mem[Start(k - 1) - 1] == Tag(blocks[k - 1])
    {
      TagsAround(k);
      if k > 0 {
        TagsAround(k - 1);
      } else {
        assert blocks[..0] == [];
      }
    }

    /** Double words of the block before block k, the prologue counting as one. */
    ghost function Before(k: nat): nat
      requires k < |blocks|
      reads this
    {
      if k > 0 then blocks[k - 1].dwords else 1
    }

    /** What coalesce reads around block k: sizes in words, and who is free. */
    lemma ReadsAround(k: nat)
      requires Encoded() && k < |blocks|
      ensures var bp, d, l := Start(k), blocks[k].dwords, Before(k);
              && 2 * l + 2 <= bp && bp + 2 * d <= |mem| && d > 0 && l > 0
              && TagWords(mem[bp - 2]) == 2 * l && TagWords(mem[bp - 2 * l - 1]) == 2 * l
                 && TagSize(mem[bp - 2 * l - 1]) == 8 * l
              && (TagAlloc(mem[bp - 2]) == 0 <==> LeftFree(blocks, k))
              && TagSize(mem[bp - 1]) == 8 * d && TagWords(mem[bp - 1]) == 2 * d
                 && (!blocks[k].used ==> mem[bp - 1] == mem[bp + 2 * d - 2] == 8 * d)
              && (TagAlloc(mem[bp + 2 * d - 1]) == 0 <==> RightFree(blocks, k))
              && (k > 0 ==> Start(k - 1) == bp - 2 * l)
      ensures RightFree(blocks, k) ==> var d, r := blocks[k].dwords, blocks[k + 1].dwords;
                r > 0 && Start(k) + 2 * d + 2 * r <= |mem| && TagSize(mem[Start(k) + 2 * d - 1]) == 8 * r
                  && TagWords(mem[Start(k) + 2 * d - 1]) == 2 * r
    {
      TagsAround(k);
      TagsBefore(k);
      TagReads(blocks[k]);
      if k > 0 { TagReads(blocks[k - 1]); }
      if k + 1 < |blocks| { TagReads(blocks[k + 1]); TagsAround(k + 1); }
    }

    /** Where the block merged around block k begins, and its double words. */
    ghost function MergedAt(k: nat): (nat, nat)
      requires k < |blocks|
      reads this
    {
      (First() + 2 * Total(blocks[..MergeLo(blocks, k)]), Total(blocks[MergeLo(blocks, k)..MergeHi(blocks, k)]))
    }

    lemma MergedFits(k: nat)
      requires Encoded() && k < |blocks|
      ensures var (p, t) := MergedAt(k);
              && t > 0 && p + 2 * t <= |mem| - 1 && 8 * t < TWO32 && p == Start(MergeLo(blocks, k)) - 1
              && t == blocks[k].dwords + (if LeftFree(blocks, k) then Before(k) else 0)
                      + (if RightFree(blocks, k) then blocks[k + 1].dwords else 0)
              && p + 1 == Start(k) - (if LeftFree(blocks, k) then 2 * Before(k) else 0)
              && TagWords(8 * t) == 2 * t
    {
      ReadsAround(k);
      MergeSize(blocks, k);
      FreeTag(Total(blocks[MergeLo(blocks, k)..MergeHi(blocks, k)]));
    }

    /** The tag reads of coalesce: both neighbours and block k itself. */
    method ReadTags(bp: nat, ghost k: nat)
        returns (prev: nat, next: nat, size: nat, prevSize: nat, nextSize: nat, prevAlloc: nat, nextAlloc: nat)
      requires Encoded() && k < |blocks| && bp == Start(k)
      ensures size == 8 * blocks[k].dwords && prevSize == 8 * Before(k) && prev == bp - 2 * Before(k)
              && next == bp + 2 * blocks[k].dwords
      ensures prevAlloc == 0 <==> LeftFree(blocks, k)
      ensures nextAlloc == 0 <==> RightFree(blocks, k)
      ensures RightFree(blocks, k) ==> nextSize == 8 * blocks[k + 1].dwords
    {
      ReadsAround(k);
      hide Region, TagSize, TagWords, TagAlloc, Total, Start, Encoded;
      prev := bp - TagWords(mem[bp - 2]);
      prevAlloc := TagAlloc(mem[prev + TagWords(mem[prev - 1]) - 2]);
      prevSize := TagSize(mem[prev - 1]);
      size := TagSize(mem[bp - 1]);
      next := bp + TagWords(mem[bp - 1]);
      nextAlloc := TagAlloc(mem[next - 1]);
      nextSize := TagSize(mem[next - 1]);
    }

    /** The tag writes of coalesce: in each of its four cases the header and the
        footer of the merged block get its size. */
    method CoalesceTags(bp: nat, ghost k: nat) returns (r: nat)
      requires Encoded() && k < |blocks| && !blocks[k].used && bp == Start(k)
      modifies this`mem
      ensures var (p, t) := old(MergedAt(k));
              t > 0 && p + 2 * t <= |old(mem)| && mem == old(mem)[p := 8 * t][p + 2 * t - 1 := 8 * t] && r == p + 1
    {
      hide Region, TagSize, TagWords, TagAlloc, Total, Start, Encoded;
      ReadsAround(k);
      MergedFits(k);
      ghost var (p, t) := MergedAt(k);
      var prev, next, size, prevSize, nextSize, prevAlloc, nextAlloc := ReadTags(bp, k);
      hide MergedAt;
      r := bp;
      if prevAlloc != 0 && nextAlloc != 0 {
        assert mem == mem[p := 8 * t][p + 2 * t - 1 := 8 * t];
      } else if prevAlloc != 0 {
        size := size + nextSize;
        Put(bp - 1, size);
        Put(bp + TagWords(mem[bp - 1]) - 2, size);
      } else if nextAlloc != 0 {
        size := size + prevSize;
        Put(bp + TagWords(mem[bp - 1]) - 2, size);
        Put(prev - 1, size);
        r := prev;
      } else {
        size := size + prevSize + nextSize;
        Put(prev - 1, size);
        Put(next + TagWords(mem[next - 1]) - 2, size);
        r := prev;
      }
    }

    /** coalesce: block k is merged with its free neighbours, and no word of a
        live payload changes. */
    method Coalesce(bp: nat, ghost k: nat) returns (r: nat)
      requires Encoded() && k < |blocks| && !blocks[k].used && bp == Start(k)
      modifies this`mem, this`blocks
      ensures Encoded() && |mem| == |old(mem)| && blocks == Merge(old(blocks), k)
      ensures r == old(Start(MergeLo(blocks, k)))
      ensures forall i :: i in Live(First(), old(blocks)) ==> i < |mem| && mem[i] == old(mem)[i]
      ensures Live(First(), blocks) == Live(First(), old(blocks))
    {
      hide Region, Live, Merge, Total;
      MergedFits(k);
      ghost var m: seq<nat> := mem;
      r := CoalesceTags(bp, k);
      MergeTags(m, mem, First(), blocks, k);
      blocks := Merge(blocks, k);
    }

    // -------------------------------------------------------------- growth

    /** Header and footer of a free block: the footer is found through the header. */
    method PutFreeTags(bp: nat, size: nat, ghost d: nat)
      requires 0 < d && size == 8 * d < TWO32 && 1 <= bp && bp + 2 * d - 1 <= |mem|
      modifies this`mem
      ensures |mem| == |old(mem)| && mem[bp - 1] == size && mem[bp + 2 * d - 2] == size
              && bp + TagWords(size) == bp + 2 * d
      ensures forall i :: 0 <= i < |mem| && i != bp - 1 && i != bp + 2 * d - 2 ==> mem[i] == old(mem)[i]
    {
      hide TagSize, TagWords;
      FreeTag(d);
      Put(bp - 1, size);
      Put(bp + TagWords(mem[bp - 1]) - 2, size);
    }

    /** The fresh words become a free block: its two tags and a new epilogue. */
    method AppendFree(size: nat) returns (r: Break)
      requires Encoded() && size % 8 == 0 && 0 < size < TWO64
      modifies this`mem, this`blocks
      ensures r == NoMemory <==> Refused(old(Brk()), size)
      ensures r.At? <==> old(Brk()) + size <= MAX_HEAP
      ensures !r.At? ==> mem == old(mem) && blocks == old(blocks)
      ensures r.At? ==> Encoded() && blocks == old(blocks) + [Block(size / 8, false)] && r.pos == Start(|old(blocks)|)
      ensures r.At? ==> Brk() == old(Brk()) + size
      ensures r.At? ==> forall i :: i in Live(First(), old(blocks)) ==> i < |old(mem)| && mem[i] == old(mem)[i]
      ensures r.At? ==> Live(First(), blocks) == Live(First(), old(blocks))
    {
      hide Region, Live, TagSize, TagWords, Refused;
      ghost var m: seq<nat> := mem;
      ghost var d := size / 8;
      assert size == 8 * d && size / 4 == 2 * d;
      r := Sbrk(size);
      if !r.At? { return; }
      var bp := r.pos;
      PutFreeTags(bp, size, d);
      Put(bp + TagWords(mem[bp - 1]) - 1, 1);
      AppendTags(m, mem, First(), blocks, d);
      assert (blocks + [Block(d, false)])[..|blocks|] == blocks;
      blocks := blocks + [Block(d, false)];
    }

    /** The same stores for an increment of nothing: sbrk returns the break as it
        is, and the tags fall on the epilogue and on the footer of the last block. */
    method AppendNothing() returns (bp: nat)
      requires Bounded() && |mem| >= 2
      modifies this`mem
      ensures |mem| == |old(mem)| && bp == |mem| && mem == old(mem)[|mem| - 2 := 0][|mem| - 1 := 0]
    {
      bp := |mem|;
      Put(bp - 1, 0);
      Put(bp + TagWords(mem[bp - 1]) - 2, 0);
      Put(bp + TagWords(mem[bp - 1]) - 1, 1);
      // coalesce takes the epilogue for a free block before it
      var prevAlloc := TagAlloc(mem[bp + TagWords(mem[bp - 1]) - 2]);
      var nextAlloc := TagAlloc(mem[bp + TagWords(mem[bp - 1]) - 1]);
      assert prevAlloc == 0 && nextAlloc == 1;
      Put(bp + TagWords(mem[bp - 1]) - 2, 0);
      Put(bp - TagWords(mem[bp - 2]) - 1, 0);
      bp := bp - TagWords(mem[bp - 2]);
    }

    /** extend_heap: the break moves by an even number of words, which become a
        free block merged with a free last block. */
    method ExtendHeap(words: nat) returns (r: Break)
      requires Encoded() && words < TWO64 && Bytes(words) > 0
      modifies this`mem, this`blocks
      ensures r == NoMemory <==> Refused(old(Brk()), Bytes(words))
      ensures r.At? <==> old(Brk()) + Bytes(words) <= MAX_HEAP
      ensures !r.At? ==> mem == old(mem) && blocks == old(blocks)
      ensures r.At? ==> Encoded() && blocks == Grown(old(blocks), Bytes(words) / 8)
      ensures r.At? ==> blocks != [] && r.pos == Start(|blocks| - 1)
      ensures r.At? ==> Brk() == old(Brk()) + Bytes(words)
      ensures r.At? ==> forall i :: i in Live(First(), old(blocks)) ==>
                i < |old(mem)| && i < |mem| && mem[i] == old(mem)[i]
      ensures r.At? ==> Live(First(), blocks) == Live(First(), old(blocks))
    {
      hide Region, Live, Merge, Total, Encoded, Bytes, Refused;
      var size := Bytes(words);
      BytesEven(words);
      ghost var bs := blocks;
      r := AppendFree(size);
      if !r.At? { return; }
      var bp := Coalesce(r.pos, |bs|);
      MergedLast(bs, size / 8);
      r := At(bp);
    }

    // -------------------------------------------------------------- search and placement

    /** Position p is where the search stands after k blocks; what it reads there. */
    ghost predicate ScanAt(k: nat, p: nat)
      reads this
    {
      && k <= |blocks| && 1 <= p <= |mem|
      && (k < |blocks| ==> p == Start(k) && TagSize(mem[p - 1]) == 8 * blocks[k].dwords > 0
                           && TagWords(mem[p - 1]) == 2 * blocks[k].dwords
                              && (TagAlloc(mem[p - 1]) == 0 <==> !blocks[k].used))
      && (k == |blocks| ==> TagSize(mem[p - 1]) == 0)
    }

    lemma ScanStarts()
      requires Encoded()
      ensures heapListp >= 1 && ScanAt(0, heapListp + TagWords(mem[heapListp - 1]))
    {
      assert blocks[..0] == [];
      TagReads(Block(1, true));
      TagReads(Block(0, true));
      if |blocks| > 0 { TagsAround(0); TagReads(blocks[0]); }
    }

    lemma ScanMoves(k: nat, p: nat)
      requires Encoded() && k < |blocks| && ScanAt(k, p)
      ensures ScanAt(k + 1, p + TagWords(mem[p - 1]))
    {
      TagsAround(k);
      TagReads(Block(0, true));
      if k + 1 < |blocks| { TagsAround(k + 1); TagReads(blocks[k + 1]); }
    }

    /** find_fit: the first free block that is large enough. */
    method FindFit(asize: nat) returns (r: Option<nat>)
      requires Encoded()
      ensures match FirstFit(blocks, asize) case Some(k) => r == Some(Start(k)) case None => r.None?
    {
      hide Region, TagSize, TagWords, TagAlloc, Total, Encoded, Start, FirstFit;
      ghost var k: nat := 0;
      ScanStarts();
      var p: nat := heapListp + TagWords(mem[heapListp - 1]);
      while TagSize(mem[p - 1]) != 0
        invariant ScanAt(k, p)
        invariant forall j :: 0 <= j < k ==> blocks[j].used || 8 * blocks[j].dwords < asize
        decreases |blocks| - k
      {
        if TagAlloc(mem[p - 1]) == 0 && TagSize(mem[p - 1]) >= asize {
          FitIsFirst(blocks, asize, k);
          return Some(p);
        }
        ScanMoves(k, p);
        p := p + TagWords(mem[p - 1]);
        k := k + 1;
      }
      return None;
    }

    /** The stores of place: the tags of a split go to a word of the payload and to
        the footer, then the whole block is tagged as used. */
    method PlaceTags(bp: nat, rsize: nat, ghost d: nat)
      requires 0 < d && 1 <= bp && bp + 2 * d - 1 <= |mem| && mem[bp - 1] == 8 * d && 8 * d + 1 < TWO32
      requires rsize % 8 == 0
      modifies this`mem
      ensures |mem| == |old(mem)| && mem[bp - 1] == 8 * d + 1 && mem[bp + 2 * d - 2] == 8 * d + 1
      ensures forall i :: 0 <= i < |mem| && !(bp - 1 <= i < bp + 2 * d - 1) ==> mem[i] == old(mem)[i]
    {
      hide TagSize, TagWords;
      FreeTag(d);
      TagReads(Block(d, true));
      var bsize := TagSize(mem[bp - 1]);
      var nsize: int := bsize - rsize;
      ghost var q := rsize / 8;
      var split := bp + rsize / 4;
      assert rsize == 8 * q && split == bp + 2 * q && nsize == 8 * (d - q);
      if bsize > rsize {
        FreeTag(d - q);
        Put(split - 1, nsize);
        Put(split + TagWords(mem[split - 1]) - 2, nsize);
      }
      Put(bp - 1, bsize + 1);
      Put(bp + TagWords(mem[bp - 1]) - 2, bsize + 1);
    }

    /** place: block k is in use as a whole, and no other payload changes. */
    method Place(bp: nat, rsize: nat, ghost k: nat)
      requires Encoded() && k < |blocks| && !blocks[k].used && bp == Start(k) && rsize % 8 == 0
      modifies this`mem, this`blocks
      ensures Encoded() && |mem| == |old(mem)| && blocks == Grant(old(blocks), k)
      ensures Start(k) == bp
      ensures forall i :: i in Live(First(), old(blocks)) ==> i < |mem| && mem[i] == old(mem)[i]
      ensures Live(First(), old(blocks)) !! Payload(bp - 1, blocks[k].dwords)
      ensures Live(First(), blocks) == Live(First(), old(blocks)) + Payload(bp - 1, blocks[k].dwords)
    {
      hide Region, Live, Total;
      ghost var bs, m: seq<nat>, d := blocks, mem, blocks[k].dwords;
      TagsAround(k);
      PlaceTags(bp, rsize, d);
      Retag(m, mem, First(), bs, k, true);
      assert bs[k := Block(d, true)][..k] == bs[..k];
      blocks := Grant(bs, k);
    }

    /** place for a request of `size` bytes. */
    method Give(bp: nat, size: nat, ghost k: nat)
      requires Encoded() && initialized && k < |blocks| && !blocks[k].used && bp == Start(k)
      requires size < TWO64
      modifies this`mem, this`blocks
      ensures Encoded() && |mem| == |old(mem)| && blocks == Grant(old(blocks), k)
      ensures Granted(k, bp, old(LiveNow()))
      ensures forall i :: i in old(LiveNow()) ==> i < |mem| && mem[i] == old(mem)[i]
    {
      hide Region, Live, Total, Encoded, AdjustedSize;
      AdjustedSizeCovers(size);
      Place(bp, AdjustedSize(size), k);
      TagsAround(k);
      StartEven(k);
    }

    // -------------------------------------------------------------- the interface

    /** minit. The first sbrk's failure is compared with -1 but comes back as NULL,
        so the stores that follow go to address 0. */
    method Init() returns (r: InitResult)
      requires Valid() && !initialized
      modifies this
      ensures Valid() && (initialized <==> r == Ready)
      ensures r == Faulted <==> old(Brk()) + 16 > MAX_HEAP
      ensures r == NoChunk <==> old(Brk()) + 16 <= MAX_HEAP && old(Brk()) + 16 + CHUNK_SIZE > MAX_HEAP
      ensures r == Ready ==> blocks == [Block(CHUNK_SIZE / 8, false)] && Brk() == old(Brk()) + 16 + CHUNK_SIZE
    {
      hide Region, Live, Grown, Total, WellFormed;
      var p := Prologue();
      if !p.At? { return Faulted; }
      assert Bytes(CHUNK_SIZE / WSIZE) == CHUNK_SIZE;
      var e := ExtendHeap(CHUNK_SIZE / WSIZE);
      if !e.At? { return NoChunk; }
      FirstChunk();
      GrownWellFormed([], CHUNK_SIZE / 8);
      initialized := true;
      r := Ready;
    }

    /** Padding, prologue and epilogue in four fresh words. */
    method Prologue() returns (r: Break)
      requires Bounded() && !initialized
      modifies this
      ensures !initialized && (!r.At? <==> old(Brk()) + 16 > MAX_HEAP)
      ensures !r.At? ==> Bounded() && mem == old(mem)
      ensures r.At? ==> Encoded() && blocks == [] && Brk() == old(Brk()) + 16
    {
      r := Sbrk(4 * WSIZE);
      if !r.At? { return; }
      heapListp := r.pos;
      Put(heapListp, 0);
      Put(heapListp + 1, 9);
      Put(heapListp + 2, 9);
      Put(heapListp + 3, 1);
      heapListp := heapListp + 2;
      blocks := [];
    }

    /** malloc when nothing fits and the increment is not zero: the heap grows and
        its last block is granted, whatever size it has. */
    method GiveFresh(size: nat, asize: nat) returns (r: MallocResult, ghost k: nat)
      requires Encoded() && initialized && WellFormed(blocks) && blocks != []
      requires size < TWO64 && asize == AdjustedSize(size) && asize % 8 == 0 && asize < TWO64 && Increment(asize) > 0
      requires forall i :: i in LiveNow() ==> i < |mem|
      modifies this`mem, this`blocks
      ensures r == Null <==> Refused(old(Brk()), Increment(asize))
      ensures r.Ptr? <==> old(Brk()) + Increment(asize) <= MAX_HEAP
      ensures r.Null? || r.Ptr? || r.Broken?
      ensures !r.Ptr? ==> blocks == old(blocks) && mem == old(mem)
      ensures r.Ptr? ==> Encoded() && Granted(k, r.pos, old(LiveNow())) && Brk() == old(Brk()) + Increment(asize)
      ensures r.Ptr? ==> var g := Grown(old(blocks), Increment(asize) / 8);
                         g != [] && blocks == Grant(g, |g| - 1) && k == |g| - 1
                           && 8 * blocks[k].dwords >= Increment(asize)
      ensures forall i :: i in old(LiveNow()) ==> i < |old(mem)| && i < |mem| && mem[i] == old(mem)[i]
    {
      hide Region, Live, Encoded, Total, WellFormed, AdjustedSize, GrowthBytes, Granted, Start, Grown, Refused, Bytes,
        Increment;
      k := 0;
      GrowthFits(asize);
      ghost var bs := blocks;
      EncodedIsBounded();
      var extend := if asize > CHUNK_SIZE then asize else CHUNK_SIZE;
      var e := ExtendHeap(extend);
      match e {
        case NoMemory => r := Null;
        case Lowered => r := Broken;
        case At(bp) =>
          GrownWellFormed(bs, Increment(asize) / 8);
          k := |blocks| - 1;
          Give(bp, size, k);
          r := Ptr(bp);
      }
    }

    /** malloc when nothing fits and the increment has wrapped to zero: the break
        is returned, and the last block's footer is lost. */
    method GiveNothing(asize: nat) returns (r: MallocResult)
      requires Bounded() && |mem| >= 2 && mem[|mem| - 1] == 1 && asize > 0
      modifies this`mem
      ensures |mem| == |old(mem)| && r == Stray(|mem|) && mem == old(mem)[|mem| - 2 := 1]
    {
      var bp := AppendNothing();
      var bsize := TagSize(mem[bp - 1]);
      assert bsize == 0 <= asize;
      Put(bp - 1, bsize + 1);
      Put(bp + TagWords(mem[bp - 1]) - 2, bsize + 1);
      r := Stray(bp);
    }

    lemma EncodedIsBounded()
      requires Encoded()
      ensures Bounded() && Brk() <= MAX_HEAP && |mem| >= 2 && mem[|mem| - 1] == 1
    {
    }

    /** Block k was granted at position p: 8-aligned, in use, and apart from every
        payload live before. */
    ghost predicate Granted(k: nat, p: nat, live: set<nat>)
      reads this
    {
      && k < |blocks| && p == Start(k) && blocks[k].used && (lo + 4 * p) % 8 == 0
      && live !! Payload(p - 1, blocks[k].dwords)
      && Live(First(), blocks) == live + Payload(p - 1, blocks[k].dwords)
    }

    /** Its payload has room for the request. */
    ghost predicate Covers(k: nat, size: nat)
      requires k < |blocks|
      reads this
    {
      size <= 8 * blocks[k].dwords - 8
    }

    /** The answer to a request for `size` bytes on a heap that had the blocks bs,
        the break brk and the live words `live`. */
    ghost predicate Answer(r: MallocResult, k: nat, size: nat, bs: seq<Block>, brk: nat, live: set<nat>)
      requires brk <= MAX_HEAP
      reads this
    {
      var asize, w := AdjustedSize(size), Increment(AdjustedSize(size));
      var fits := HasFit(bs, size);
      if size == 0 then r == Null && blocks == bs && Brk() == brk
      else
        && (r == Null <==> !fits && Refused(brk, w))
        && (r.Ptr? <==> fits || (0 < w && brk + w <= MAX_HEAP))
        && (r.Stray? <==> !fits && w == 0)
        && r != Crash
        && (!r.Ptr? ==> blocks == bs && Brk() == brk)
        && (fits ==> FirstRoom(bs, size, k) && blocks == Grant(bs, k) && Brk() == brk)
        && (r.Ptr? && !fits ==> k == |blocks| - 1 && Brk() == brk + w)
        && (r.Ptr? ==> blocks == Malloced(bs, asize, w / 8) && Granted(k, r.pos, live)
                       && (Covers(k, size) <==> size + 15 < TWO64 && (fits || GrowthBytes(asize) < TWO64)))
    }

    /** malloc on a ready heap, for every size_t request. */
    method MallocReady(size: nat) returns (r: MallocResult, ghost k: nat)
      requires Valid() && initialized && size < TWO64
      modifies this`mem, this`blocks
      ensures Answer(r, k, size, old(blocks), old(Brk()), old(LiveNow()))
      ensures r.Null? ==> mem == old(mem)
      ensures r.Null? || r.Ptr? ==> Valid()
      ensures r.Null? || r.Ptr? ==> forall i :: i in old(LiveNow()) ==>
                i < |old(mem)| && i < |mem| && mem[i] == old(mem)[i]
      ensures r.Stray? ==> 2 <= |mem| == |old(mem)| && r.pos == |mem| && mem == old(mem)[|mem| - 2 := 1]
    {
      hide Region, Live, Encoded, Total, Merge, WellFormed, AdjustedSize, GrowthBytes, Granted, Start, FirstFit, Grown,
        Increment, Refused, Fits;
      k := 0;
      LiveFits();
      EncodedIsBounded();
      if size == 0 { return Null, k; }
      var asize := AdjustedSize(size);
      ghost var bs := blocks;
      RequestFacts(size, Brk());
      SizesPositive(bs);
      FitIsRoom(bs, size);
      var fit := FindFit(asize);
      if fit.Some? {
        k := FirstFit(bs, asize).value;
        MallocedWellFormed(bs, asize, 1);
        Give(fit.value, size, k);
        r := Ptr(fit.value);
      } else if Increment(asize) == 0 {
        r := GiveNothing(asize);
      } else {
        GrowthFits(asize);
        MallocedWellFormed(bs, asize, Increment(asize) / 8);
        r, k := GiveFresh(size, asize);
      }
      if r.Ptr? {
        EncodedIsBounded();
        BlockBelowLimit(k);
      }
    }

    lemma BlockBelowLimit(k: nat)
      requires Encoded() && k < |blocks|
      ensures 8 * blocks[k].dwords <= MAX_HEAP
    {
      TagsAround(k);
    }

    lemma NotCrash(r: MallocResult, k: nat, size: nat, bs: seq<Block>, brk: nat, live: set<nat>)
      requires brk <= MAX_HEAP && Answer(r, k, size, bs, brk, live)
      ensures r != Crash
    {
    }

    lemma StartEven(k: nat)
      requires Encoded() && k < |blocks|
      ensures Start(k) % 2 == 0 && lo % 8 == 0
    {
      TagsAround(k);
    }

    /** What a caller is promised: NULL only when no free block serves and the
        growth that malloc wants is not to be had, else a block with room for the
        request, for which the heap grows only if no free block serves. */
    ghost predicate Right(r: MallocResult, k: nat, size: nat, bs: seq<Block>, brk: nat)
      reads this
    {
      match r
      case Null =>
        size == 0 || (!HasRoom(bs, size) && brk + GrowthBytes(AdjustedSize(size)) > MAX_HEAP)
      case Ptr(p) => k < |blocks| && p == Start(k) && Covers(k, size) && (Brk() == brk <==> HasRoom(bs, size))
      case _ => false
    }

    /** malloc keeps that promise exactly for requests that fit, that are refused
        all the same, or whose arithmetic does not wrap. */
    lemma RightExactly(r: MallocResult, k: nat, size: nat, bs: seq<Block>, brk: nat, live: set<nat>)
      requires brk <= MAX_HEAP && size < TWO64 && Answer(r, k, size, bs, brk, live)
      ensures var asize := AdjustedSize(size);
              var fits := HasFit(bs, size);
              Right(r, k, size, bs, brk) <==>
                || size == 0
                || (!fits && Refused(brk, Increment(asize)))
                || (size + 15 < TWO64 && (fits || brk + GrowthBytes(asize) < TWO64))
    {
      hide Live, FirstFit, AdjustedSize, GrowthBytes, Refused, Start, Malloced, Payload;
      if size > 0 {
        RequestFacts(size, brk);
        BreakFacts(AdjustedSize(size), brk);
      }
    }

    /** A request for 2^63 bytes is granted the 32 bytes that its growth wraps to. */
    method HugeRequest() returns (r: MallocResult, ghost k: nat)
      requires Valid() && initialized && Brk() + 32 <= MAX_HEAP
      modifies this`mem, this`blocks
      ensures r.Ptr? && blocks == Malloced(old(blocks), 0x8000_0000_0000_0008, 4)
      ensures Granted(k, r.pos, old(LiveNow())) && !Covers(k, 0x8000_0000_0000_0000)
    {
      hide Region, Live, Encoded, Total, WellFormed, Granted, Start, FirstFit, Malloced;
      var size: nat := 0x8000_0000_0000_0000;
      assert AdjustedSize(size) == 0x8000_0000_0000_0008 && Increment(AdjustedSize(size)) == 32;
      if FirstFit(blocks, AdjustedSize(size)).Some? { BlockBelowLimit(FirstFit(blocks, AdjustedSize(size)).value); }
      r, k := MallocReady(size);
    }

    /** malloc, with lazy initialisation. */
    method Malloc(size: nat) returns (r: MallocResult, ghost k: nat)
      requires Valid() && size < TWO64
      modifies this
      ensures r == Crash <==> !old(initialized) && old(Brk()) + 16 > MAX_HEAP
      ensures !old(initialized) && old(Brk()) + 16 + CHUNK_SIZE > MAX_HEAP ==> r == Crash || r == Null
      ensures old(initialized) ==> Answer(r, k, size, old(blocks), old(Brk()), old(LiveNow()))
      ensures !old(initialized) && old(Brk()) + 16 + CHUNK_SIZE <= MAX_HEAP ==>
                Answer(r, k, size, [Block(CHUNK_SIZE / 8, false)], old(Brk()) + 16 + CHUNK_SIZE, {})
      ensures !r.Stray? && !r.Broken? ==> Valid()
      ensures r.Null? || r.Ptr? ==> forall i :: i in old(LiveNow()) ==>
                i < |old(mem)| && i < |mem| && mem[i] == old(mem)[i]
    {
      hide Region, Encoded, WellFormed, Total, Granted, Live, Answer;
      k := 0;
      if !initialized {
        var i := Init();
        if i == Faulted { return Crash, 0; }
        if i == NoChunk { return Null, 0; }
        LiveNone(First(), blocks);
      }
      EncodedIsBounded();
      ghost var bs, brk, live := blocks, Brk(), LiveNow();
      r, k := MallocReady(size);
      NotCrash(r, k, size, bs, brk, live);
    }

    /** The stores of free: both tags of block k say that it is free. */
    method ClearTags(p: nat, ghost k: nat)
      requires Encoded() && k < |blocks| && blocks[k].used && p == Start(k)
      modifies this`mem, this`blocks
      ensures Encoded() && |mem| == |old(mem)| && blocks == old(blocks)[k := Block(old(blocks)[k].dwords, false)]
      ensures Start(k) == p
      ensures Live(First(), blocks) == Live(First(), old(blocks)) - Payload(p - 1, old(blocks)[k].dwords)
      ensures forall i :: i in Live(First(), blocks) ==> i < |mem| && mem[i] == old(mem)[i]
    {
      hide Region, Live, TagSize, TagWords, TagAlloc, Total;
      ghost var bs, m: seq<nat>, d := blocks, mem, blocks[k].dwords;
      TagsAround(k);
      TagReads(bs[k]);
      var size := TagSize(mem[p - 1]);
      PutFreeTags(p, size, d);
      Retag(m, mem, First(), bs, k, false);
      assert bs[k := Block(d, false)][..k] == bs[..k];
      blocks := bs[k := Block(d, false)];
    }

    /** free of the block granted at position p. */
    method Free(p: nat, ghost k: nat)
      requires Valid() && initialized && k < |blocks| && blocks[k].used && p == Start(k)
      modifies this`mem, this`blocks
      ensures Valid() && |mem| == |old(mem)| && blocks == Freed(old(blocks), k)
      ensures Live(First(), blocks) == Live(First(), old(blocks)) - Payload(p - 1, old(blocks)[k].dwords)
      ensures forall i :: i in Live(First(), blocks) ==> i < |mem| && mem[i] == old(mem)[i]
    {
      hide Region, Live, Total, Merge, WellFormed, Encoded, Start;
      ghost var bs := blocks;
      ClearTags(p, k);
      FreedWellFormed(bs, k);
      MergeNonEmpty(blocks, k);
      var _ := Coalesce(p, k);
      EncodedIsBounded();
    }
  }

  /** A program whose data end at or above sbrk's limit: its first malloc, whatever
      it asks for, writes to address 0. */
  method CrashingHeap(start: nat, size: nat) returns (r: MallocResult)
    requires start % 8 == 0 && MAX_HEAP <= start < USER_TOP && size < TWO64
    ensures r == Crash
  {
    var h := new Heap(start);
    ghost var k;
    r, k := h.Malloc(size);
  }

  /** extend_heap's size in bytes, in 64-bit arithmetic. */
  function Bytes(words: nat): nat {
    (if words % 2 == 1 then (words + 1) * WSIZE else words * WSIZE) % TWO64
  }

  lemma BytesEven(words: nat)
    ensures Bytes(words) % 8 == 0 && Bytes(words) < TWO64
  {
    var q := (words + words % 2) / 2;
    assert words + words % 2 == 2 * q;
    WrapMultiple(q);
  }

  lemma WrapMultiple(q: nat)
    ensures (8 * q) % TWO64 == 8 * (q % (TWO64 / 8))
  {
    var a, b := q / (TWO64 / 8), q % (TWO64 / 8);
    assert 8 * q == TWO64 * a + 8 * b;
  }

  lemma NewBreak(brk: nat, bytes: nat)
    requires brk < USER_TOP && bytes < TWO64
    ensures (brk + bytes) % TWO64 == if brk + bytes < TWO64 then brk + bytes else brk + bytes - TWO64
  {
  }

  lemma GrowthFits(asize: nat)
    requires asize % 8 == 0
    ensures Bytes(if asize > CHUNK_SIZE then asize else CHUNK_SIZE) == Increment(asize)
    ensures Increment(asize) % 8 == 0 && (Increment(asize) > 0 ==> Increment(asize) / 8 > 0)
  {
    BytesEven(if asize > CHUNK_SIZE then asize else CHUNK_SIZE);
  }

  /** The arithmetic of one request, wrapping or not. */
  lemma RequestFacts(size: nat, brk: nat)
    requires 0 < size < TWO64 && brk <= MAX_HEAP
    ensures var asize := AdjustedSize(size);
            && asize % 8 == 0 && asize < TWO64
            && (size + 15 < TWO64 ==> size + 8 <= asize) && (size + 15 >= TWO64 ==> size > MAX_HEAP)
            && (GrowthBytes(asize) < TWO64 ==> Increment(asize) == GrowthBytes(asize) > 0 && asize <= Increment(asize))
            && (GrowthBytes(asize) >= TWO64 ==> size > MAX_HEAP && asize > 0)
            && (Increment(asize) == 0 ==> GrowthBytes(asize) >= TWO64)
            && !Refused(brk, 0)
            && (brk + Increment(asize) <= MAX_HEAP ==> !Refused(brk, Increment(asize)))
  {
    AdjustedSizeCovers(size);
    NewBreak(brk, Increment(AdjustedSize(size)));
  }

  lemma SizesPositive(bs: seq<Block>)
    requires WellFormed(bs)
    ensures forall j :: 0 <= j < |bs| ==> bs[j].dwords > 0
  {
  }

  lemma BreakFacts(asize: nat, brk: nat)
    requires brk <= MAX_HEAP
    ensures Refused(brk, Increment(asize)) ==> brk + GrowthBytes(asize) > MAX_HEAP
    ensures brk + GrowthBytes(asize) < TWO64 ==>
              GrowthBytes(asize) < TWO64 && Increment(asize) == GrowthBytes(asize) > 0
              && (Refused(brk, Increment(asize)) <==> brk + Increment(asize) > MAX_HEAP)
    ensures brk + Increment(asize) <= MAX_HEAP && GrowthBytes(asize) < TWO64 ==> brk + GrowthBytes(asize) < TWO64
  {
    NewBreak(brk, Increment(asize));
  }

  datatype InitResult = Ready | NoChunk | Faulted

  lemma FirstChunk()
    ensures Grown([], CHUNK_SIZE / 8) == [Block(CHUNK_SIZE / 8, false)]
  {
    var u := [Block(CHUNK_SIZE / 8, false)];
    assert [] + u == u;
    assert u[0..1] == u && Total(u) == u[0].dwords + Total(u[1..]);
  }

  lemma MergeNonEmpty(bs: seq<Block>, k: nat)
    requires k < |bs|
    ensures Merge(bs, k) != []
  {
  }

  lemma FitIsFirst(bs: seq<Block>, need: nat, k: nat)
    requires k < |bs| && !bs[k].used && need <= 8 * bs[k].dwords
    requires forall j :: 0 <= j < k ==> bs[j].used || 8 * bs[j].dwords < need
    ensures FirstFit(bs, need) == Some(k)
  {
  }

  /** Growth leaves the merged block last, at the stretch coalesce returns. */
  lemma MergedLast(bs: seq<Block>, d: nat)
    ensures var u, g := bs + [Block(d, false)], Grown(bs, d);
            && g != [] && MergeLo(u, |bs|) == |g| - 1 && g[..|g| - 1] == u[..|g| - 1]
  {
  }
}
