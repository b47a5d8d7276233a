/** The allocator's heap as a list of blocks: what malloc and free do to it, free
    of tags and addresses. Sizes are in double words of 8 bytes. */
module Blocks {
  import opened Basics

  datatype Block = Block(dwords: nat, used: bool)

  function Total(bs: seq<Block>): nat {
    if bs == [] then 0 else bs[0].dwords + Total(bs[1..])
  }

  lemma {:induction false} TotalSplit(a: seq<Block>, b: seq<Block>)
    ensures Total(a + b) == Total(a) + Total(b)
  {
    if a == [] {
      assert a + b == b;
    } else {
      assert (a + b)[1..] == a[1..] + b;
      TotalSplit(a[1..], b);
    }
  }

  /** Sizes are not zero and no two neighbours are both free. */
  ghost predicate WellFormed(bs: seq<Block>) {
    && (forall k :: 0 <= k < |bs| ==> bs[k].dwords > 0)
    && (forall k :: 0 <= k < |bs| - 1 ==> bs[k].used || bs[k + 1].used)
  }

  /** Apart from block k, which has just become free. */
  ghost predicate AlmostWellFormed(bs: seq<Block>, k: nat) {
    && k < |bs| && !bs[k].used
    && (forall j :: 0 <= j < |bs| ==> bs[j].dwords > 0)
    && (forall j :: 0 <= j < |bs| - 1 && j != k && j + 1 != k ==> bs[j].used || bs[j + 1].used)
  }

  // ---------------------------------------------------------------- what the operations do

  predicate LeftFree(bs: seq<Block>, k: nat)
    requires k < |bs|
  {
    k > 0 && !bs[k - 1].used
  }

  predicate RightFree(bs: seq<Block>, k: nat)
    requires k < |bs|
  {
    k + 1 < |bs| && !bs[k + 1].used
  }

  /** The stretch of blocks that merging around k turns into one. */
  function MergeLo(bs: seq<Block>, k: nat): nat
    requires k < |bs|
  {
    if LeftFree(bs, k) then k - 1 else k
  }

  function MergeHi(bs: seq<Block>, k: nat): (hi: nat)
    requires k < |bs|
    ensures k < hi <= |bs|
  {
    if RightFree(bs, k) then k + 2 else k + 1
  }

  /** Block k joined with whichever neighbours are free. */
  function Merge(bs: seq<Block>, k: nat): seq<Block>
    requires k < |bs|
  {
    var lo, hi := MergeLo(bs, k), MergeHi(bs, k);
    bs[..lo] + [Block(Total(bs[lo..hi]), false)] + bs[hi..]
  }

  /** Its size is the sum of the sizes that coalesce reads from the tags. */
  lemma MergeSize(bs: seq<Block>, k: nat)
    requires k < |bs|
    ensures Total(bs[MergeLo(bs, k)..MergeHi(bs, k)]) ==
            bs[k].dwords + (if LeftFree(bs, k) then bs[k - 1].dwords else 0)
            + if RightFree(bs, k) then bs[k + 1].dwords else 0
  {
    var lo, hi := MergeLo(bs, k), MergeHi(bs, k);
    var s := bs[lo..hi];
    assert Total(s) == s[0].dwords + Total(s[1..]);
    if |s| > 1 { assert Total(s[1..]) == s[1].dwords + Total(s[1..][1..]); }
    if |s| > 2 { assert Total(s[1..][1..]) == s[2].dwords + Total(s[1..][1..][1..]); }
  }

  function Grant(bs: seq<Block>, k: nat): seq<Block>
    requires k < |bs|
  {
    bs[k := Block(bs[k].dwords, true)]
  }

  /** free of block k. */
  function Freed(bs: seq<Block>, k: nat): seq<Block>
    requires k < |bs|
  {
    Merge(bs[k := Block(bs[k].dwords, false)], k)
  }

  /** The first free block of at least `need` bytes. */
  function FirstFit(bs: seq<Block>, need: nat): (r: Option<nat>)
    ensures r.Some? ==> r.value < |bs| && !bs[r.value].used && need <= 8 * bs[r.value].dwords
    ensures r.Some? ==> forall j :: 0 <= j < r.value ==> bs[j].used || 8 * bs[j].dwords < need
    ensures r.None? ==> forall j :: 0 <= j < |bs| ==> bs[j].used || 8 * bs[j].dwords < need
  {
    if bs == [] then None
    else if !bs[0].used && need <= 8 * bs[0].dwords then Some(0)
    else
      match FirstFit(bs[1..], need)
      case Some(k) => Some(k + 1)
      case None => None
  }

  /** Growth by d double words: a free block at the end, merged to its left. */
  function Grown(bs: seq<Block>, d: nat): seq<Block> {
    Merge(bs + [Block(d, false)], |bs|)
  }

  /** malloc: first fit, or the last block after growth by d double words. */
  function Malloced(bs: seq<Block>, need: nat, d: nat): seq<Block> {
    match FirstFit(bs, need)
    case Some(k) => Grant(bs, k)
    case None => Grant(Grown(bs, d), |Grown(bs, d)| - 1)
  }

  // ---------------------------------------------------------------- what they keep

  lemma JoinKeepsTotal(a: seq<Block>, b: seq<Block>, c: seq<Block>)
    ensures Total(a + [Block(Total(b), false)] + c) == Total(a + b + c)
  {
    var mid := [Block(Total(b), false)];
    assert Total(mid) == Total(b) + Total(mid[1..]);
    hide Total;
    TotalSplit(a + mid, c);
    TotalSplit(a, mid);
    TotalSplit(a + b, c);
    TotalSplit(a, b);
  }

  lemma MergeKeepsTotal(bs: seq<Block>, k: nat)
    requires k < |bs|
    ensures Total(Merge(bs, k)) == Total(bs)
  {
    hide Total;
    var lo, hi := MergeLo(bs, k), MergeHi(bs, k);
    JoinKeepsTotal(bs[..lo], bs[lo..hi], bs[hi..]);
    assert bs == bs[..lo] + bs[lo..hi] + bs[hi..];
  }

  lemma {:induction false} TotalPositive(bs: seq<Block>)
    requires bs != [] && forall j :: 0 <= j < |bs| ==> bs[j].dwords > 0
    ensures Total(bs) > 0
  {
  }

  lemma WellFormedAround(a: seq<Block>, x: Block, c: seq<Block>)
    requires WellFormed(a) && WellFormed(c) && x.dwords > 0
    requires a != [] ==> a[|a| - 1].used
    requires c != [] ==> c[0].used
    ensures WellFormed(a + [x] + c)
  {
    var m := a + [x] + c;
    forall j | 0 <= j < |m| - 1 ensures m[j].used || m[j + 1].used {
      if j + 1 < |a| {
        assert a[j].used || a[j + 1].used;
      } else if j > |a| {
        var i := j - |a| - 1;
        assert m[j] == c[i] && m[j + 1] == c[i + 1];
        assert c[i].used || c[i + 1].used;
      }
    }
  }

  lemma PartsWellFormed(bs: seq<Block>, k: nat, lo: nat, hi: nat)
    requires AlmostWellFormed(bs, k) && lo <= k < hi <= |bs|
    ensures WellFormed(bs[..lo]) && WellFormed(bs[hi..])
  {
    var a, c := bs[..lo], bs[hi..];
    forall j | 0 <= j < |a| - 1 ensures a[j].used || a[j + 1].used {
      assert bs[j].used || bs[j + 1].used;
    }
    forall j | 0 <= j < |c| - 1 ensures c[j].used || c[j + 1].used {
      assert bs[hi + j].used || bs[hi + j + 1].used;
    }
  }

  /** Coalescing restores the no-two-free-neighbours rule, in all four cases. */
  lemma MergeWellFormed(bs: seq<Block>, k: nat)
    requires AlmostWellFormed(bs, k)
    ensures WellFormed(Merge(bs, k))
  {
    var lo, hi := MergeLo(bs, k), MergeHi(bs, k);
    TotalPositive(bs[lo..hi]);
    PartsWellFormed(bs, k, lo, hi);
    if lo > 0 && lo < k { var before := bs[lo - 1]; }
    if hi < |bs| && hi > k + 1 { var after := bs[k + 1]; }
    WellFormedAround(bs[..lo], Block(Total(bs[lo..hi]), false), bs[hi..]);
  }

  lemma FreedWellFormed(bs: seq<Block>, k: nat)
    requires WellFormed(bs) && k < |bs|
    ensures WellFormed(Freed(bs, k)) && Total(Freed(bs, k)) == Total(bs)
  {
    var u := bs[k := Block(bs[k].dwords, false)];
    forall j | 0 <= j < |u| - 1 && j != k && j + 1 != k ensures u[j].used || u[j + 1].used {
      assert bs[j].used || bs[j + 1].used;
    }
    MergeWellFormed(u, k);
    MergeKeepsTotal(u, k);
    SetKeepsTotal(bs, k, false);
  }

  lemma SetKeepsTotal(bs: seq<Block>, k: nat, b: bool)
    requires k < |bs|
    ensures Total(bs[k := Block(bs[k].dwords, b)]) == Total(bs)
  {
    var u := bs[k := Block(bs[k].dwords, b)];
    assert bs == bs[..k] + bs[k..] && u == bs[..k] + u[k..];
    TotalSplit(bs[..k], bs[k..]);
    TotalSplit(bs[..k], u[k..]);
    assert u[k..][1..] == bs[k..][1..];
  }

  lemma GrantWellFormed(bs: seq<Block>, k: nat)
    requires WellFormed(bs) && k < |bs|
    ensures WellFormed(Grant(bs, k)) && Total(Grant(bs, k)) == Total(bs)
  {
    SetKeepsTotal(bs, k, true);
    var u := Grant(bs, k);
    forall j | 0 <= j < |u| - 1 ensures u[j].used || u[j + 1].used {
      assert bs[j].used || bs[j + 1].used;
    }
  }

  lemma GrownWellFormed(bs: seq<Block>, d: nat)
    requires WellFormed(bs) && d > 0
    ensures WellFormed(Grown(bs, d)) && Total(Grown(bs, d)) == Total(bs) + d
    ensures var g := Grown(bs, d); g != [] && !g[|g| - 1].used && g[|g| - 1].dwords >= d
  {
    var u := bs + [Block(d, false)];
    forall j | 0 <= j < |u| - 1 && j + 1 != |bs| ensures u[j].used || u[j + 1].used {
      assert bs[j].used || bs[j + 1].used;
    }
    MergeWellFormed(u, |bs|);
    MergeKeepsTotal(u, |bs|);
    TotalSplit(bs, [Block(d, false)]);
    var lo := if LeftFree(u, |bs|) then |bs| - 1 else |bs|;
    TotalSplit(u[lo..|bs|], u[|bs|..]);
    assert u[lo..|u|] == u[lo..|bs|] + u[|bs|..];
    assert u[|bs|..] == [Block(d, false)];
    assert Total([Block(d, false)]) == d + Total([Block(d, false)][1..]);
  }

  lemma MallocedWellFormed(bs: seq<Block>, need: nat, d: nat)
    requires WellFormed(bs) && d > 0
    ensures WellFormed(Malloced(bs, need, d))
    ensures Total(Malloced(bs, need, d)) == Total(bs) + if FirstFit(bs, need).Some? then 0 else d
  {
    match FirstFit(bs, need)
    case Some(k) => GrantWellFormed(bs, k);
    case None =>
      GrownWellFormed(bs, d);
      GrantWellFormed(Grown(bs, d), |Grown(bs, d)| - 1);
  }

  // ---------------------------------------------------------------- round trip and conservation

  /** A free block of a well-formed list has no free neighbour to join. */
  lemma MergeAlone(bs: seq<Block>, k: nat)
    requires WellFormed(bs) && k < |bs| && !bs[k].used
    ensures Merge(bs, k) == bs
  {
    MergeSize(bs, k);
    hide Total;
    if k > 0 { var before := bs[k - 1]; }
    assert bs == bs[..k] + [bs[k]] + bs[k + 1..];
  }

  /** Freeing a block that malloc took without growing the heap gives back
      exactly the block list from before. */
  lemma FreeUndoesMalloc(bs: seq<Block>, need: nat)
    requires WellFormed(bs) && FirstFit(bs, need).Some?
    ensures Freed(Grant(bs, FirstFit(bs, need).value), FirstFit(bs, need).value) == bs
  {
    var k := FirstFit(bs, need).value;
    hide WellFormed, Merge;
    assert Grant(bs, k)[k := Block(bs[k].dwords, false)] == bs;
    MergeAlone(bs, k);
  }

  /** When nothing is in use the heap is one free block, whatever happened. */
  lemma AllFreeIsOne(bs: seq<Block>)
    requires WellFormed(bs) && bs != [] && forall k :: 0 <= k < |bs| ==> !bs[k].used
    ensures bs == [Block(Total(bs), false)]
  {
    if |bs| > 1 { assert false; }
    assert Total(bs) == bs[0].dwords + Total(bs[1..]);
  }

  datatype Op = Malloc(need: nat, growth: nat) | Free(k: nat)

  /** The list after a sequence of operations, and the double words obtained. */
  function Run(bs: seq<Block>, got: nat, ops: seq<Op>): (seq<Block>, nat)
    decreases |ops|
  {
    if ops == [] then (bs, got)
    else
      match ops[0]
      case Malloc(need, d) =>
        Run(Malloced(bs, need, d), if FirstFit(bs, need).Some? then got else got + d, ops[1..])
      case Free(k) => Run(if k < |bs| then Freed(bs, k) else bs, got, ops[1..])
  }

  lemma StaysNonEmpty(bs: seq<Block>, need: nat, d: nat, k: nat)
    requires k < |bs|
    ensures Malloced(bs, need, d) != [] && Freed(bs, k) != []
  {
    hide Total, FirstFit;
  }

  /** Every sequence of malloc and free keeps the heap well formed and accounts
      for every double word; once all is freed, one free block holds them all. */
  lemma {:induction false} RunConserves(bs: seq<Block>, got: nat, ops: seq<Op>)
    requires WellFormed(bs) && Total(bs) == got && bs != [] && forall op :: op in ops && op.Malloc? ==> op.growth > 0
    ensures var (r, n) := Run(bs, got, ops);
            && WellFormed(r) && Total(r) == n
            && ((forall k :: 0 <= k < |r| ==> !r[k].used) ==> r == [Block(n, false)])
    decreases |ops|
  {
    hide WellFormed, Total, FirstFit, Merge, Grant, Malloced, Freed;
    if ops == [] {
      if forall k :: 0 <= k < |bs| ==> !bs[k].used { AllFreeIsOne(bs); }
    } else {
      match ops[0]
      case Malloc(need, d) =>
        MallocedWellFormed(bs, need, d);
        StaysNonEmpty(bs, need, d, 0);
        RunConserves(Malloced(bs, need, d), if FirstFit(bs, need).Some? then got else got + d, ops[1..]);
      case Free(k) =>
        if k < |bs| {
          FreedWellFormed(bs, k);
          StaysNonEmpty(bs, 0, 0, k);
        }
        RunConserves(if k < |bs| then Freed(bs, k) else bs, got, ops[1..]);
    }
  }
}
