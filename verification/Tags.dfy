/** Boundary tags: how a block list is written into the words of the heap. Words
    are 4 bytes; a block of d double words has its header in its first word and
    its footer in its last, and its payload in between. */
module Tags {
  import opened Blocks

  function Tag(b: Block): nat { 8 * b.dwords + if b.used then 1 else 0 }

  /** GET_SIZE and GET_ALLOC on a tag: bits 31-3 and bits 2-0. */
  function TagSize(t: nat): nat { t / 8 * 8 }
  function TagAlloc(t: nat): nat { t % 8 }

  /** The same size as a distance in words. */
  function TagWords(t: nat): nat { TagSize(t) / 4 }

  lemma TagReads(b: Block)
    ensures TagSize(Tag(b)) == 8 * b.dwords && TagWords(Tag(b)) == 2 * b.dwords && (TagAlloc(Tag(b)) == 0 <==> !b.used)
  {
  }

  lemma FreeTag(d: nat)
    ensures TagSize(8 * d) == 8 * d && TagWords(8 * d) == 2 * d && TagAlloc(8 * d) == 0
  {
  }

  /** The words from h on hold the blocks bs, tag for tag. */
  ghost predicate Region(mem: seq<nat>, h: nat, bs: seq<Block>)
    decreases |bs|
  {
    bs != [] ==>
      var d := bs[0].dwords;
      && d > 0 && h + 2 * d <= |mem|
      && mem[h] == Tag(bs[0]) && mem[h + 2 * d - 1] == Tag(bs[0])
      && Region(mem, h + 2 * d, bs[1..])
  }

  lemma {:induction false} RegionSplit(mem: seq<nat>, h: nat, a: seq<Block>, b: seq<Block>)
    ensures Region(mem, h, a + b) <==> Region(mem, h, a) && Region(mem, h + 2 * Total(a), b)
    decreases |a|
  {
    if a == [] {
      assert a + b == b;
    } else {
      assert (a + b)[0] == a[0] && (a + b)[1..] == a[1..] + b;
      RegionSplit(mem, h + 2 * a[0].dwords, a[1..], b);
    }
  }

  lemma {:induction false} RegionFrame(m: seq<nat>, n: seq<nat>, h: nat, bs: seq<Block>)
    requires Region(m, h, bs) && h + 2 * Total(bs) <= |n|
    requires forall i :: h <= i < h + 2 * Total(bs) && i < |m| ==> n[i] == m[i]
    ensures Region(n, h, bs)
    decreases |bs|
  {
    if bs != [] {
      RegionFrame(m, n, h + 2 * bs[0].dwords, bs[1..]);
    }
  }

  lemma {:induction false} RegionFits(mem: seq<nat>, h: nat, bs: seq<Block>)
    requires Region(mem, h, bs) && h <= |mem|
    ensures h + 2 * Total(bs) <= |mem| && forall k :: 0 <= k < |bs| ==> bs[k].dwords > 0
    decreases |bs|
  {
    if bs != [] {
      RegionFits(mem, h + 2 * bs[0].dwords, bs[1..]);
    }
  }

  lemma RegionOne(mem: seq<nat>, h: nat, y: Block)
    requires y.dwords > 0 && h + 2 * y.dwords <= |mem| && mem[h] == Tag(y) && mem[h + 2 * y.dwords - 1] == Tag(y)
    ensures Region(mem, h, [y]) && Total([y]) == y.dwords
  {
    assert [y][1..] == [];
    assert Region(mem, h + 2 * y.dwords, []);
  }

  lemma RegionThree(mem: seq<nat>, h: nat, a: seq<Block>, b: seq<Block>, c: seq<Block>)
    ensures Region(mem, h, a + b + c) <==>
            Region(mem, h, a) && Region(mem, h + 2 * Total(a), b) && Region(mem, h + 2 * Total(a) + 2 * Total(b), c)
    ensures Total(a + b + c) == Total(a) + Total(b) + Total(c)
  {
    RegionSplit(mem, h, a + b, c);
    RegionSplit(mem, h, a, b);
    TotalSplit(a, b);
    TotalSplit(a + b, c);
  }

  /** Rewriting the stretch of the blocks b as one block y. */
  lemma RegionReplace(m: seq<nat>, n: seq<nat>, h: nat, a: seq<Block>, b: seq<Block>, c: seq<Block>, y: Block)
    requires Region(m, h, a + b + c) && h <= |m| == |n| && y.dwords == Total(b) > 0
    requires h + 2 * Total(a) + 2 * Total(b) <= |m|
    requires forall i :: 0 <= i < |m| && !(h + 2 * Total(a) <= i < h + 2 * Total(a) + 2 * Total(b)) ==> n[i] == m[i]
    requires n[h + 2 * Total(a)] == Tag(y) && n[h + 2 * Total(a) + 2 * Total(b) - 1] == Tag(y)
    ensures Region(n, h, a + [y] + c) && Total(a + [y] + c) == Total(a + b + c)
  {
    hide Region, Total;
    var x, z := h + 2 * Total(a), h + 2 * Total(a) + 2 * Total(b);
    RegionThree(m, h, a, b, c);
    RegionFits(m, z, c);
    RegionFrame(m, n, h, a);
    RegionFrame(m, n, z, c);
    RegionOne(n, x, y);
    RegionThree(n, h, a, [y], c);
  }

  /** Where block k lies and what its two tags say. */
  lemma BlockAt(mem: seq<nat>, h: nat, bs: seq<Block>, k: nat)
    requires Region(mem, h, bs) && k < |bs| && h <= |mem|
    ensures var p := h + 2 * Total(bs[..k]);
            && bs[k].dwords > 0 && p + 2 * bs[k].dwords <= |mem|
            && mem[p] == Tag(bs[k]) && mem[p + 2 * bs[k].dwords - 1] == Tag(bs[k])
    ensures Total(bs[..k + 1]) == Total(bs[..k]) + bs[k].dwords
  {
    assert bs == bs[..k] + bs[k..] && bs[k..][0] == bs[k];
    RegionSplit(mem, h, bs[..k], bs[k..]);
    assert bs[..k + 1] == bs[..k] + [bs[k]];
    TotalSplit(bs[..k], [bs[k]]);
    assert Total([bs[k]]) == bs[k].dwords + Total([bs[k]][1..]);
  }

  // ---------------------------------------------------------------- payloads

  predicate InPayload(h: nat, d: nat, i: nat) { h < i < h + 2 * d - 1 }

  ghost function Payload(h: nat, d: nat): set<nat> {
    set i: nat | 0 <= i < h + 2 * d && InPayload(h, d, i)
  }

  /** The payload words of the blocks in use. */
  ghost function Live(h: nat, bs: seq<Block>): set<nat>
    decreases |bs|
  {
    if bs == [] then {}
    else (if bs[0].used then Payload(h, bs[0].dwords) else {}) + Live(h + 2 * bs[0].dwords, bs[1..])
  }

  lemma {:induction false} LiveSplit(h: nat, a: seq<Block>, b: seq<Block>)
    ensures Live(h, a + b) == Live(h, a) + Live(h + 2 * Total(a), b)
    decreases |a|
  {
    if a == [] {
      assert a + b == b;
    } else {
      assert (a + b)[0] == a[0] && (a + b)[1..] == a[1..] + b;
      LiveSplit(h + 2 * a[0].dwords, a[1..], b);
    }
  }

  lemma {:induction false} LiveInside(h: nat, bs: seq<Block>, i: nat)
    requires i in Live(h, bs)
    ensures h < i < h + 2 * Total(bs) - 1
    decreases |bs|
  {
    if !(bs[0].used && i in Payload(h, bs[0].dwords)) {
      LiveInside(h + 2 * bs[0].dwords, bs[1..], i);
    }
  }

  lemma LiveOne(h: nat, y: Block)
    ensures Live(h, [y]) == if y.used then Payload(h, y.dwords) else {}
  {
    assert [y][1..] == [];
    assert Live(h + 2 * y.dwords, [y][1..]) == {};
  }

  /** The live words of a list seen as three stretches. */
  lemma LiveThree(h: nat, a: seq<Block>, b: seq<Block>, c: seq<Block>)
    ensures Live(h, a + b + c) == Live(h, a) + Live(h + 2 * Total(a), b) + Live(h + 2 * Total(a) + 2 * Total(b), c)
  {
    LiveSplit(h, a + b, c);
    LiveSplit(h, a, b);
    TotalSplit(a, b);
  }

  /** A live word is in the stretch of the blocks b only if it is live there. */
  lemma LiveOutside(h: nat, a: seq<Block>, b: seq<Block>, c: seq<Block>, i: nat)
    requires i in Live(h, a + b + c)
    ensures h + 2 * Total(a) <= i < h + 2 * Total(a) + 2 * Total(b) ==> i in Live(h + 2 * Total(a), b)
    ensures h < i < h + 2 * Total(a + b + c) - 1
  {
    LiveThree(h, a, b, c);
    LiveInside(h, a + b + c, i);
    if i in Live(h, a) { LiveInside(h, a, i); }
    if i in Live(h + 2 * Total(a) + 2 * Total(b), c) { LiveInside(h + 2 * Total(a) + 2 * Total(b), c, i); }
  }

  lemma {:induction false} LiveNone(h: nat, bs: seq<Block>)
    requires forall k :: 0 <= k < |bs| ==> !bs[k].used
    ensures Live(h, bs) == {}
    decreases |bs|
  {
    if bs != [] { LiveNone(h + 2 * bs[0].dwords, bs[1..]); }
  }

  // ---------------------------------------------------------------- merging and tagging

  /** Two tag writes merge the blocks around k and touch no live word. */
  lemma MergeTags(m: seq<nat>, n: seq<nat>, h: nat, bs: seq<Block>, k: nat)
    requires Region(m, h, bs) && h <= |m| && k < |bs| && !bs[k].used
    requires var lo, hi := MergeLo(bs, k), MergeHi(bs, k);
             var p, t := h + 2 * Total(bs[..lo]), Total(bs[lo..hi]);
             t > 0 && p + 2 * t <= |m| && n == m[p := 8 * t][p + 2 * t - 1 := 8 * t]
    ensures Region(n, h, Merge(bs, k)) && Total(Merge(bs, k)) == Total(bs)
    ensures forall i :: i in Live(h, bs) ==> i < |m| && n[i] == m[i]
    ensures Live(h, Merge(bs, k)) == Live(h, bs)
  {
    hide Region, Total, Live;
    var lo, hi := MergeLo(bs, k), MergeHi(bs, k);
    var a, b, c := bs[..lo], bs[lo..hi], bs[hi..];
    var y := Block(Total(b), false);
    assert bs == a + b + c;
    RegionReplace(m, n, h, a, b, c, y);
    RegionFits(m, h, bs);
    LiveNone(h + 2 * Total(a), b);
    forall i | i in Live(h, bs) ensures i < |m| && n[i] == m[i] { LiveOutside(h, a, b, c, i); }
    LiveThree(h, a, b, c);
    LiveThree(h, a, [y], c);
    LiveOne(h + 2 * Total(a), y);
    RegionOne(n, h + 2 * Total(a), y);
  }

  /** Retagging block k, with any change inside its payload, touches no live word
      of another block. */
  lemma Retag(m: seq<nat>, n: seq<nat>, h: nat, bs: seq<Block>, k: nat, used: bool)
    requires Region(m, h, bs) && h <= |m| == |n| && k < |bs|
    requires var p, d := h + 2 * Total(bs[..k]), bs[k].dwords;
             && d > 0 && p + 2 * d <= |m|
             && n[p] == Tag(Block(d, used)) && n[p + 2 * d - 1] == Tag(Block(d, used))
             && forall i :: 0 <= i < |m| && !(p <= i < p + 2 * d) ==> n[i] == m[i]
    ensures Region(n, h, bs[k := Block(bs[k].dwords, used)])
    ensures Total(bs[k := Block(bs[k].dwords, used)]) == Total(bs)
    ensures var p, d := h + 2 * Total(bs[..k]), bs[k].dwords;
            && (forall i :: i in Live(h, bs) && i !in Payload(p, d) ==> i < |m| && n[i] == m[i])
            && Live(h, bs[k := Block(d, used)]) == Live(h, bs) - Payload(p, d) + (if used then Payload(p, d) else {})
            && (bs[k].used || Live(h, bs) !! Payload(p, d))
  {
    hide Region, Total, Live;
    var p, d := h + 2 * Total(bs[..k]), bs[k].dwords;
    var a, b, c := bs[..k], [bs[k]], bs[k + 1..];
    var y := Block(d, used);
    assert bs == a + b + c;
    assert bs[k := y] == a + [y] + c;
    RegionOne(m[p := Tag(bs[k])][p + 2 * d - 1 := Tag(bs[k])], p, bs[k]);
    RegionReplace(m, n, h, a, b, c, y);
    RegionFits(m, h, bs);
    LiveOne(p, bs[k]);
    LiveOne(p, y);
    LiveThree(h, a, b, c);
    RegionOne(n, p, y);
    LiveThree(h, a, [y], c);
    forall i | i in Live(h, a) ensures i < p { LiveInside(h, a, i); }
    var q := p + 2 * d;
    forall i | i in Live(q, c) ensures i > q { LiveInside(q, c, i); }
    forall i | i in Live(h, bs) && i !in Payload(p, d) ensures i < |m| && n[i] == m[i] { LiveOutside(h, a, b, c, i); }
  }

  /** A free block written over the old epilogue and the fresh words after it. */
  lemma AppendTags(m: seq<nat>, n: seq<nat>, h: nat, bs: seq<Block>, d: nat)
    requires Region(m, h, bs) && |m| == h + 2 * Total(bs) + 1 && d > 0 && |n| == |m| + 2 * d
    requires forall i :: 0 <= i < |m| - 1 ==> n[i] == m[i]
    requires n[|m| - 1] == 8 * d && n[|m| + 2 * d - 2] == 8 * d
    ensures Region(n, h, bs + [Block(d, false)]) && Total(bs + [Block(d, false)]) == Total(bs) + d
    ensures Live(h, bs + [Block(d, false)]) == Live(h, bs)
    ensures forall i :: i in Live(h, bs) ==> i < |m| && n[i] == m[i]
  {
    var y := Block(d, false);
    RegionFrame(m, n, h, bs);
    RegionOne(n, h + 2 * Total(bs), y);
    RegionSplit(n, h, bs, [y]);
    TotalSplit(bs, [y]);
    LiveSplit(h, bs, [y]);
    LiveOne(h + 2 * Total(bs), y);
    forall i | i in Live(h, bs) ensures i < |m| && n[i] == m[i] { LiveInside(h, bs, i); }
  }
}
