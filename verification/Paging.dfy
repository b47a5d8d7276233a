/** The paging code itself: frames are taken from page_array, tables are walked
    and filled word by word, and every method is proved to perform one update of
    the copy-on-write machine (plus the frames it takes for kernel use). */
module Paging {
  import opened Basics
  import opened CowMachine
  import opened CowInvariant
  import opened Hardware
  import opened TableTree
  import opened TableUpdates
  import opened ForkLoop

  datatype Verdict = Resumed | Killed | Panicked

  lemma FreeBeforeGrow(s: State, fs: set<nat>, f: nat)
    requires IsFree(Grow(s, fs), f)
    ensures IsFree(s, f) && f !in fs
  {
  }

  lemma SizesOf(m: Image)
    requires Good(m)
    ensures Sizes(m) && Owned(m) && |m.ram| == FRAMES && |m.ref| == FRAMES && Abs(m).ref == m.ref
    ensures (forall k :: k in m.node ==> m.node[k] < FRAMES) && forall f :: f in m.data ==> f < FRAMES && m.ref[f] >= 1
  {
  }

  /** Reading the leaf slot tells whether the page is mapped. */
  lemma LeafPresent(m: Image, p: nat, v: nat)
    requires Good(m) && PteKey(p, v) in m.node && v < USER_PAGES
    ensures p in m.mms && p in Abs(m).procs && m.node[PteKey(p, v)] < FRAMES
    ensures v in Abs(m).procs[p].pt <==> m.ram[m.node[PteKey(p, v)]][PteOff(v)] != 0
    ensures v in Abs(m).procs[p].pt ==> Abs(m).procs[p].pt[v] == PteOf(m.ram[m.node[PteKey(p, v)]][PteOff(v)])
  {
    assert KeyOk(m, PteKey(p, v));
  }

  /** The stores of map_a_page, in order, for a fresh frame g. */
  ghost function Loaded(m: Image, p: nat, v: nat, a: Vma, g: nat): (n: Image)
    requires Good(m) && FreeFrame(m, g) && PteKey(p, v) in m.node
    ensures Sizes(n) && Owned(n)
  {
    hide Linked, Leaves, Rooted, KernelSlots, Closed, Template;
    AddDataGood(m, g, ZeroPage());
    var m1 := AddData(m, g, ZeroPage());
    SetLeafGood(m1, p, v, Pte(g, true, false));
    var m2 := SetLeaf(m1, p, v, Pte(g, true, false));
    if a.backing.Anonymous? then m2
    else
      PutDataGood(m2, g, Fill(a, v));
      var m3 := PutData(m2, g, Fill(a, v));
      SetLeafGood(m3, p, v, Pte(g, a.rw, false));
      SetLeaf(m3, p, v, Pte(g, a.rw, false))
  }

  /** State s with the entry of page v of process p set to e. */
  ghost function WithEntry(s: State, p: nat, v: nat, e: Pte): State
    requires p in s.procs
  {
    s.(procs := s.procs[p := s.procs[p].(pt := s.procs[p].pt[v := e])])
  }

  lemma DemandSteps(s: State, p: nat, v: nat, a: Vma, g: nat)
    requires p in s.procs && g < |s.ref|
    ensures var s1 := s.(ref := s.ref[g := 1], mem := s.mem[g := ZeroPage()]);
            var s2 := WithEntry(s1, p, v, Pte(g, true, false));
            if a.backing.Anonymous? then s2 == Demand(s, p, v, a, g)
            else WithEntry(s2.(mem := s2.mem[g := Fill(a, v)]), p, v, Pte(g, a.rw, false)) == Demand(s, p, v, a, g)
  {
    var s1 := s.(ref := s.ref[g := 1], mem := s.mem[g := ZeroPage()]);
    var s2 := WithEntry(s1, p, v, Pte(g, true, false));
    var s4 := WithEntry(s2.(mem := s2.mem[g := Fill(a, v)]), p, v, Pte(g, a.rw, false));
    assert s4.mem == s.mem[g := Fill(a, v)];
    assert s4.procs[p].pt == s.procs[p].pt[v := Pte(g, a.rw, false)];
    assert s4.procs == s.procs[p := s4.procs[p]];
  }

  /** A store into a kernel frame that is no table and not the template. */
  lemma KernelPageStored(m: Image, f: nat, page: Page)
    requires Good(m) && f in m.kernel && f != m.kpgd && f < |m.ram| && forall k :: k in m.node ==> m.node[k] != f
    ensures var n := m.(ram := m.ram[f := page]); Good(n) && Abs(n) == Abs(m)
  {
    hide Linked, Leaves, Rooted, KernelSlots, Closed;
    var n := m.(ram := m.ram[f := page]);
    SameTables(m, n);
    assert Abs(n).mem == Abs(m).mem;
  }

  lemma TemplateIs(m: Image)
    requires Good(m)
    ensures m.kpgd < |m.ram| && forall i :: 0 <= i < USER_SLOTS ==> m.ram[m.kpgd][i] == 0
  {
  }

  lemma PtIs(m: Image, p: nat)
    requires Good(m) && p in m.mms
    ensures p in Abs(m).procs && Abs(m).procs[p].pt == PtOf(m, p)
    ensures forall v :: v in PtOf(m, p) ==> PteKey(p, v) in m.node
  {
  }

  lemma DemandImage(m: Image, p: nat, v: nat, a: Vma, g: nat)
    requires Good(m) && FreeFrame(m, g) && PteKey(p, v) in m.node && v < USER_PAGES
    ensures p in Abs(m).procs && IsFree(Abs(m), g) && Abs(Loaded(m, p, v, a, g)) == Demand(Abs(m), p, v, a, g)
  {
    hide Linked, Leaves, Rooted, KernelSlots, Closed, Template, Abs, Demand, Fill;
    LeafPresent(m, p, v);
    FreeFrameUnused(m, g);
    AddDataGood(m, g, ZeroPage());
    var m1 := AddData(m, g, ZeroPage());
    SetLeafMaps(m1, p, v, Pte(g, true, false));
    var m2 := SetLeaf(m1, p, v, Pte(g, true, false));
    if a.backing.File? {
      PutDataGood(m2, g, Fill(a, v));
      SetLeafMaps(PutData(m2, g, Fill(a, v)), p, v, Pte(g, a.rw, false));
    }
    DemandSteps(Abs(m), p, v, a, g);
  }

  lemma FramesKnown(m: Image, p: nat)
    requires Good(m) && p in m.mms
    ensures p in Abs(m).procs && |Abs(m).ref| == FRAMES
    ensures forall v :: v in Abs(m).procs[p].pt ==>
              Abs(m).procs[p].pt[v].frame in m.data && Abs(m).procs[p].pt[v].frame < FRAMES
  {
    forall v | v in PtOf(m, p) ensures PtOf(m, p)[v].frame in m.data && PtOf(m, p)[v].frame < FRAMES {
      assert LeafOk(m, m.ram[m.node[PteKey(p, v)]][PteOff(v)]);
    }
  }

  /** The stores of a copy-on-write split, in order. */
  ghost function SplitStores(m: Image, p: nat, v: nat, f: nat, g: nat): Image
    requires Good(m) && FreeFrame(m, g) && PteKey(p, v) in m.node && f in m.data
  {
    AddDataGood(m, g, m.ram[f]);
    var m1 := AddData(m, g, m.ram[f]);
    SetLeafGood(m1, p, v, Pte(g, true, false));
    var m2 := SetLeaf(m1, p, v, Pte(g, true, false));
    SetRef(m2, f, m2.ref[f] - 1)
  }

  lemma SplitImage(m: Image, p: nat, v: nat, g: nat)
    requires Good(m) && FreeFrame(m, g) && PteKey(p, v) in m.node && v < USER_PAGES
    requires p in Abs(m).procs && v in Abs(m).procs[p].pt && Abs(m).procs[p].pt[v].frame in m.data
    requires m.ref[Abs(m).procs[p].pt[v].frame] > 1
    ensures var f := Abs(m).procs[p].pt[v].frame;
            && IsFree(Abs(m), g) && f in Abs(m).mem && f < |Abs(m).ref|
            && Good(SplitStores(m, p, v, f, g)) && Abs(SplitStores(m, p, v, f, g)) == Split(Abs(m), p, v, g)
  {
    hide Good, Owned, PtOf, PteKey, LeafWord, SetLeaf;
    SizesOf(m);
    var f := Abs(m).procs[p].pt[v].frame;
    FreeFrameUnused(m, g);
    AddDataGood(m, g, m.ram[f]);
    var m1 := AddData(m, g, m.ram[f]);
    SizesOf(m1);
    SetLeafMaps(m1, p, v, Pte(g, true, false));
    SetLeafSame(m1, p, v, Pte(g, true, false));
    var m2 := SetLeaf(m1, p, v, Pte(g, true, false));
    SizesOf(m2);
    SetRefGood(m2, f, m2.ref[f] - 1);
  }

  /** The update that page_fault_handler makes, given the action the faulting
      state calls for; `fs` are the frames taken for tables, `g` for data. */
  ghost predicate Handled(s: State, t: State, p: nat, addr: nat, rw: bool, fs: set<nat>, g: nat, r: Verdict)
    requires p in s.procs && forall v :: v in s.procs[p].pt ==> s.procs[p].pt[v].frame < |s.ref|
  {
    var v := addr / PG_SIZE;
    match Handle(s, p, addr, rw)
    case MapPage(a) =>
      && r == Resumed && (forall f :: f in fs ==> IsFree(s, f))
      && IsFree(Grow(s, fs), g) && t == Demand(Grow(s, fs), p, v, a, g)
    case SplitPage => r == Resumed && IsFree(s, g) && s.procs[p].pt[v].frame in s.mem && t == Split(s, p, v, g)
    case ClearCow => r == Resumed && t == Clear(s, p, v)
    case Kill => r == Killed && t == s
  }

  /** The stores of one iteration of copy_vma_deep for a mapped page. */
  ghost function CopyStores(m: Image, p: nat, c: nat, a: Vma, v: nat, f: nat): Image
    requires Good(m) && PteKey(p, v) in m.node && PteKey(c, v) in m.node && f in m.data
  {
    SetLeafGood(m, p, v, Pte(f, false, true));
    var m1 := if a.rw then SetLeaf(m, p, v, Pte(f, false, true)) else m;
    SetLeafGood(m1, c, v, Pte(f, false, a.rw));
    var m2 := SetLeaf(m1, c, v, Pte(f, false, a.rw));
    SetRef(m2, f, m2.ref[f] + 1)
  }

  lemma CopySteps(s: State, p: nat, c: nat, a: Vma, v: nat)
    requires p in s.procs && c in s.procs && p != c && v in s.procs[p].pt && s.procs[p].pt[v].frame < |s.ref|
    ensures var f := s.procs[p].pt[v].frame;
            var s1 := if a.rw then WithEntry(s, p, v, Pte(f, false, true)) else s;
            var s2 := WithEntry(s1, c, v, Pte(f, false, a.rw));
            s2.(ref := s2.ref[f := s2.ref[f] + 1]) == CopyPte(s, p, c, a, v)
  {
    var f := s.procs[p].pt[v].frame;
    var s1 := if a.rw then WithEntry(s, p, v, Pte(f, false, true)) else s;
    var s2 := WithEntry(s1, c, v, Pte(f, false, a.rw));
    assert s2.procs == CopyPte(s, p, c, a, v).procs;
  }

  /** A leaf store moves no table and no reference. */
  lemma SetLeafSame(m: Image, p: nat, v: nat, e: Pte)
    requires Sizes(m) && Owned(m) && PteKey(p, v) in m.node && e.frame < FRAMES
    ensures var n := SetLeaf(m, p, v, e); n.node == m.node && n.ref == m.ref && n.data == m.data && n.mms == m.mms
  {
  }

  lemma CopyImage(m: Image, p: nat, c: nat, a: Vma, v: nat, f: nat)
    requires Good(m) && PteKey(p, v) in m.node && PteKey(c, v) in m.node && v < USER_PAGES && p != c && f in m.data
    requires p in Abs(m).procs && v in Abs(m).procs[p].pt && Abs(m).procs[p].pt[v].frame == f
    ensures c in Abs(m).procs && f < |Abs(m).ref|
    ensures Good(CopyStores(m, p, c, a, v, f)) && Abs(CopyStores(m, p, c, a, v, f)) == CopyPte(Abs(m), p, c, a, v)
  {
    hide Good, Owned, Abs, CopyPte, SetLeaf, SetRef;
    SizesOf(m);
    SetLeafMaps(m, p, v, Pte(f, false, true));
    SetLeafSame(m, p, v, Pte(f, false, true));
    var m1 := if a.rw then SetLeaf(m, p, v, Pte(f, false, true)) else m;
    SizesOf(m1);
    SetLeafMaps(m1, c, v, Pte(f, false, a.rw));
    SetLeafSame(m1, c, v, Pte(f, false, a.rw));
    var m2 := SetLeaf(m1, c, v, Pte(f, false, a.rw));
    SizesOf(m2);
    SetRefGood(m2, f, m2.ref[f] + 1);
    CopySteps(Abs(m), p, c, a, v);
  }

  // ---------------------------------------------------------------- fork in progress

  /** State t is fork from s0 in progress: k VMAs and the pages of VMA k below i
      are done, and the frames `fs` have been taken for the kernel. */
  ghost predicate ForkAt(s0: State, t: State, p: nat, c: nat, k: nat, i: int, fs: set<nat>) {
    && p in s0.procs && c !in s0.procs && k <= |s0.procs[p].vmas|
    && t == Grow(PartialFork(s0, p, c, k, i), fs)
    && forall f :: f in fs ==> IsFree(s0, f)
  }

  lemma MappedNotFree(s: State, p: nat, v: nat)
    requires Inv(s) && p in s.procs && v in s.procs[p].pt
    ensures s.procs[p].pt[v].frame < FRAMES && !IsFree(s, s.procs[p].pt[v].frame)
  {
    assert Maps(s, p, v);
  }

  lemma CopiedIsUsed(s: State, p: nat, k: nat, i: int, f: nat)
    requires Inv(s) && p in s.procs && k <= |s.procs[p].vmas| && CopiesDone(s.procs[p], k, i, f) != {}
    ensures f < |s.ref| && s.ref[f] >= 1
  {
    var x :| x in CopiesDone(s.procs[p], k, i, f);
    assert Maps(s, p, x.1);
  }

  lemma FreeInPartial(s: State, p: nat, c: nat, k: nat, i: int, f: nat)
    requires Inv(s) && p in s.procs && k <= |s.procs[p].vmas| && IsFree(PartialFork(s, p, c, k, i), f)
    ensures IsFree(s, f)
  {
    if CopiesDone(s.procs[p], k, i, f) != {} { CopiedIsUsed(s, p, k, i, f); }
  }

  lemma HeapKept(s: State, fs: set<nat>, p: nat)
    requires p in s.procs
    ensures p in Grow(s, fs).procs && Grow(s, fs).procs[p] == s.procs[p]
  {
  }

  lemma ForkBegins(s: State, p: nat, c: nat, fs: set<nat>)
    requires p in s.procs && c !in s.procs && forall f :: f in fs ==> IsFree(s, f)
    ensures p in Grow(s, fs).procs
    ensures ForkAt(s, Grow(s, fs).(procs := Grow(s, fs).procs[c := Proc([], Grow(s, fs).procs[p].heap, map[])]), p, c,
            0, 0, fs)
  {
    ForkStarts(s, p, c, 0);
  }

  // ---------------------------------------------------------------- exec in progress

  lemma ExecBegins(s: State, p: nat, heap: nat, fs: set<nat>)
    ensures var t := Exit(Grow(s, fs), p);
            t.(procs := t.procs[p := Proc([], heap, map[])]) == Grow(Exec(s, p, [], heap), fs)
  {
    var t := Exit(Grow(s, fs), p);
    assert t.procs[p := Proc([], heap, map[])] == Exec(s, p, [], heap).procs;
  }

  lemma ExecFree(s: State, p: nat, vmas: seq<Vma>, heap: nat, f: nat)
    requires IsFree(Exec(s, p, vmas, heap), f)
    ensures IsFree(s, f)
  {
  }

  lemma ExecLinks(s: State, p: nat, vmas: seq<Vma>, heap: nat, k: nat, fs: set<nat>)
    requires k < |vmas|
    ensures var t := Grow(Exec(s, p, vmas[..k], heap), fs);
            && p in t.procs
            && t.(procs := t.procs[p := t.procs[p].(vmas := t.procs[p].vmas + [vmas[k]])])
               == Grow(Exec(s, p, vmas[..k + 1], heap), fs)
  {
    assert vmas[..k] + [vmas[k]] == vmas[..k + 1];
  }

  lemma MmOf(m: Image, p: nat)
    requires Good(m)
    ensures p in m.mms <==> p in Abs(m).procs
    ensures p in m.mms ==> Abs(m).procs[p].vmas == m.mms[p].vmas && Abs(m).procs[p].heap == m.mms[p].heap
  {
  }

  lemma ForkTake(s0: State, t: State, p: nat, c: nat, k: nat, i: int, fs: set<nat>, more: set<nat>)
    requires Inv(s0) && ForkAt(s0, t, p, c, k, i, fs) && forall f :: f in more ==> IsFree(t, f)
    ensures ForkAt(s0, Grow(t, more), p, c, k, i, fs + more)
  {
    var u := PartialFork(s0, p, c, k, i);
    GrowTwice(u, fs, more);
    forall f | f in more ensures IsFree(s0, f) {
      FreeBeforeGrow(u, fs, f);
      FreeInPartial(s0, p, c, k, i, f);
    }
  }

  lemma ForkPage(s0: State, t: State, p: nat, c: nat, k: nat, i: nat, fs: set<nat>)
    requires Inv(s0) && ForkAt(s0, t, p, c, k, i, fs) && p != c && k < |s0.procs[p].vmas|
             && s0.procs[p].vmas[k].Touches(i)
    requires p in t.procs && c in t.procs && (i in t.procs[p].pt ==> t.procs[p].pt[i].frame < |t.ref|)
    ensures ForkAt(s0, CopyPte(t, p, c, s0.procs[p].vmas[k], i), p, c, k, i + 1, fs)
  {
    hide CopyPte;
    var u := PartialFork(s0, p, c, k, i);
    if i in s0.procs[p].pt { MappedNotFree(s0, p, i); }
    CopyCommutes(u, p, c, s0.procs[p].vmas[k], i, fs);
    CopyOnePage(s0, p, c, k, i);
  }

  /** Moving the page cursor up to the first page of the VMA does nothing. */
  lemma ForkSkip(s0: State, t: State, p: nat, c: nat, k: nat, i: int, j: int, fs: set<nat>)
    requires ForkAt(s0, t, p, c, k, i, fs)
    requires k < |s0.procs[p].vmas| ==> i <= FirstPage(s0.procs[p].vmas[k]) && j <= FirstPage(s0.procs[p].vmas[k])
    ensures ForkAt(s0, t, p, c, k, j, fs)
  {
    var q := s0.procs[p];
    forall v: nat ensures !InPart(q, k, i, v) && !InPart(q, k, j, v) {
      NothingYet(q, k, i, v);
      NothingYet(q, k, j, v);
    }
    var a, b := PartialFork(s0, p, c, k, i), PartialFork(s0, p, c, k, j);
    assert a.procs[p].pt == b.procs[p].pt;
    assert a.procs[c].pt == b.procs[c].pt;
    forall f | 0 <= f < |s0.ref| ensures a.ref[f] == b.ref[f] {
      assert CopiesDone(q, k, i, f) == CopiesDone(q, k, j, f);
    }
    assert a.ref == b.ref;
  }

  lemma ForkNextVma(s0: State, t: State, p: nat, c: nat, k: nat, i: int, j: int, fs: set<nat>)
    requires Inv(s0) && ForkAt(s0, t, p, c, k, i, fs) && p != c && k < |s0.procs[p].vmas|
             && EndPage(s0.procs[p].vmas[k]) <= i
    requires k + 1 < |s0.procs[p].vmas| ==> j <= FirstPage(s0.procs[p].vmas[k + 1])
    ensures c in t.procs
    ensures ForkAt(s0, t.(procs := t.procs[c := t.procs[c].(vmas := t.procs[c].vmas + [s0.procs[p].vmas[k]])]), p, c,
            k + 1, j, fs)
  {
    NextVma(s0, p, c, k, i, j);
  }

  lemma RootsIn(m: Image, p: nat)
    requires Good(m) && p in m.mms
    ensures Key(p, 0, 0) in m.node && m.node[Key(p, 0, 0)] == m.mms[p].pgd && m.mms[p].pgd < FRAMES
    ensures |m.ram| == FRAMES
  {
  }

  lemma CopyAbsent(s: State, p: nat, c: nat, a: Vma, v: nat)
    requires p in s.procs && c in s.procs && p != c && v !in s.procs[p].pt
    ensures CopyPte(s, p, c, a, v) == s
  {
  }

  /** Frames taken after others were free before those. */
  lemma GrowFree(s: State, fs: set<nat>, more: set<nat>)
    requires (forall f :: f in fs ==> IsFree(s, f)) && forall f :: f in more ==> IsFree(Grow(s, fs), f)
    ensures Grow(Grow(s, fs), more) == Grow(s, fs + more) && forall f :: f in fs + more ==> IsFree(s, f)
  {
    forall f | f in more ensures IsFree(s, f) { FreeBeforeGrow(s, fs, f); }
    GrowTwice(s, fs, more);
  }

  /** What one iteration of copy_vma_deep needs of the state. */
  ghost predicate CopyOk(s: State, p: nat, c: nat, v: nat) {
    p in s.procs && c in s.procs && (v in s.procs[p].pt ==> s.procs[p].pt[v].frame < |s.ref|)
  }

  lemma ForkDone(s0: State, t: State, p: nat, c: nat, i: int, fs: set<nat>)
    requires Inv(s0) && p in s0.procs && p != c && ForkAt(s0, t, p, c, |s0.procs[p].vmas|, i, fs)
    ensures t == Grow(Fork(s0, p, c), fs) && forall f :: f in fs ==> IsFree(s0, f)
  {
    ForkEnds(s0, p, c, i);
  }

  lemma InUserHalf(a: Vma, addr: nat)
    requires VmaOk(a) && a.Contains(addr)
    ensures addr / PG_SIZE < USER_PAGES
  {
  }

  /** No entry maps a page of the kernel half, and no VMA holds an address there. */
  lemma KernelHalf(m: Image, p: nat, addr: nat)
    requires Good(m) && p in m.mms && addr / PG_SIZE >= USER_PAGES && forall a :: a in m.mms[p].vmas ==> VmaOk(a)
    ensures p in Abs(m).procs && addr / PG_SIZE !in Abs(m).procs[p].pt && SearchVma(Abs(m).procs[p].vmas, addr).None?
  {
    if SearchVma(m.mms[p].vmas, addr).Some? { InUserHalf(SearchVma(m.mms[p].vmas, addr).value, addr); }
  }

  /** A page below a missing table is not mapped. */
  lemma NoTableNoPage(m: Image, p: nat, v: nat)
    requires Good(m) && p in m.mms && v < USER_PAGES
    requires PudKey(p, v) !in m.node || PmdKey(p, v) !in m.node || PteKey(p, v) !in m.node
    ensures p in Abs(m).procs && v !in Abs(m).procs[p].pt
  {
    hide Linked, Leaves, Closed, KernelSlots, Template, PteOf, PudKey, PmdKey, PteKey;
    Ancestors(m, p, v);
  }

  // ---------------------------------------------------------------- how many frames are left

  predicate Available(refs: seq<int>, f: nat) {
    FREE_START <= f < FREE_END && f < |refs| && refs[f] == 0
  }

  ghost function Spare(refs: seq<int>): set<nat> {
    set f: nat | 0 <= f < |refs| && Available(refs, f)
  }

  lemma SpareTaken(refs: seq<int>, f: nat)
    requires Available(refs, f)
    ensures |Spare(refs[f := 1])| == |Spare(refs)| - 1
  {
    assert Spare(refs[f := 1]) == Spare(refs) - {f};
  }

  lemma SpareKept(refs: seq<int>, f: nat, r: int)
    requires f < |refs| && refs[f] != 0 && r != 0
    ensures Spare(refs[f := r]) == Spare(refs)
  {
  }

  lemma SpareNone(refs: seq<int>)
    requires forall f :: FREE_START <= f < FREE_END && f < |refs| ==> refs[f] != 0
    ensures Spare(refs) == {}
  {
  }

  /** The tables below the directory of process p. */
  ghost function Tables(node: map<Key, nat>, p: nat): set<Key> {
    set k | k in node && k.p == p && k.level > 0
  }

  /** The child has tables only where its parent has them. */
  ghost predicate Matched(node: map<Key, nat>, p: nat, c: nat) {
    forall k :: k in node && k.p == c && k.level > 0 ==> Key(p, k.level, k.n) in node
  }

  lemma TableAdded(node: map<Key, nat>, k: Key, f: nat)
    requires k !in node && k.level > 0
    ensures |Tables(node[k := f], k.p)| == |Tables(node, k.p)| + 1
    ensures forall q :: q != k.p ==> Tables(node[k := f], q) == Tables(node, q)
  {
    assert Tables(node[k := f], k.p) == Tables(node, k.p) + {k};
    forall q | q != k.p ensures Tables(node[k := f], q) == Tables(node, q) {}
  }

  lemma StillMatched(node: map<Key, nat>, after: map<Key, nat>, k: Key, j: Key, i: nat)
    requires Matched(node, k.p, j.p) && k.level == j.level && k.n == j.n && k.p != j.p && k.Child(i) in node
    requires node.Keys <= after.Keys <= node.Keys + {j.Child(i)}
    ensures Matched(after, k.p, j.p) && Tables(after, k.p) == Tables(node, k.p)
  {
    forall q | q in after && q.p == j.p && q.level > 0 ensures Key(k.p, q.level, q.n) in after {
      if q !in node { assert q == j.Child(i) && Key(k.p, q.level, q.n) == k.Child(i); }
      assert Key(k.p, q.level, q.n) in node.Keys;
    }
    forall q: Key | q in after && q.p == k.p ensures q in node.Keys { assert q != j.Child(i); }
  }

  /** A new process has a directory and no table below it. */
  lemma FreshChild(m: Image, p: nat, c: nat, pgd: nat)
    requires Good(m) && p in m.mms && c !in m.mms
    ensures var n := m.node[Key(c, 0, 0) := pgd];
            Tables(n, c) == {} && Matched(n, p, c) && Tables(n, p) == Tables(m.node, p)
  {
    hide Linked, Leaves, KernelSlots, Closed, Template, Owned;
    forall k | k in m.node ensures k.p != c { assert KeyOk(m, k); }
  }

  ghost function Moved(ks: set<Key>, p: nat): set<Key> {
    set k | k in ks :: Key(p, k.level, k.n)
  }

  lemma {:induction false} MovedSize(ks: set<Key>, p: nat, c: nat)
    requires forall k :: k in ks ==> k.p == c
    ensures |Moved(ks, p)| == |ks|
  {
    if ks == {} {
      assert Moved(ks, p) == {};
    } else {
      var k :| k in ks;
      MovedSize(ks - {k}, p, c);
      assert Moved(ks, p) == Moved(ks - {k}, p) + {Key(p, k.level, k.n)};
      assert Key(p, k.level, k.n) !in Moved(ks - {k}, p);
    }
  }

  /** So it has at most as many. */
  lemma MatchedCount(node: map<Key, nat>, p: nat, c: nat)
    requires Matched(node, p, c)
    ensures |Tables(node, c)| <= |Tables(node, p)|
  {
    MovedSize(Tables(node, c), p, c);
    assert Moved(Tables(node, c), p) <= Tables(node, p);
    SubsetSize(Moved(Tables(node, c), p), Tables(node, p));
  }

  class Kernel {
    const pageArray: array<int>
    const kpgd: nat
    var ram: seq<Page>
    var mms: map<nat, Mm>
    ghost var node: map<Key, nat>
    ghost var kernel: set<nat>
    ghost var data: set<nat>

    ghost function Img(): Image
      reads this, pageArray
    {
      Image(ram, mms, pageArray[..], kpgd, node, kernel, data)
    }

    ghost predicate Valid()
      reads this, pageArray
    {
      Good(Img())
    }

    /** How many frames get_free_page can still give. */
    ghost function Free(): nat
      reads pageArray
    {
      |Spare(pageArray[..])|
    }

    /** Free frames and the tables of process c: what making its tables leaves as it is. */
    ghost function Budget(c: nat): nat
      reads this, pageArray
    {
      Free() + |Tables(node, c)|
    }

    /** The machine this memory represents. */
    ghost function Machine(): State
      requires Valid()
      reads this, pageArray
    {
      Abs(Img())
    }

    /** The kernel after boot: its own directory in frame d, no process yet. */
    constructor (refs: seq<int>, contents: seq<Page>, d: nat)
      requires |refs| == FRAMES && |contents| == FRAMES && d < FRAMES && refs[d] >= 1
      requires forall i :: 0 <= i < USER_SLOTS ==> contents[d][i] == 0
      requires forall i :: USER_SLOTS <= i < WORDS ==> !UserBit(contents[d][i])
      ensures Valid() && fresh(pageArray) && Machine() == State(map[], refs, map[], {d}) && mms == map[]
      ensures Inv(Machine())
    {
      pageArray := new int[FRAMES](i requires 0 <= i < FRAMES => refs[i]);
      kpgd := d;
      ram := contents;
      mms := map[];
      node := map[];
      kernel := {d};
      data := {};
      new;
      assert pageArray[..] == refs;
    }

    // -------------------------------------------------------------- frames

    /** The lowest free frame of the range, or nothing when all are taken. */
    method GetFreePage() returns (r: Option<nat>)
      requires pageArray.Length == FRAMES
      modifies pageArray
      ensures r.Some? ==> FREE_START <= r.value < FREE_END && old(pageArray[r.value]) == 0
      ensures r.Some? ==> forall f :: FREE_START <= f < r.value ==> old(pageArray[f]) != 0
      ensures r.Some? ==> pageArray[..] == old(pageArray[..])[r.value := 1]
      ensures r.None? ==> pageArray[..] == old(pageArray[..])
      ensures old(Free()) == Free() + if r.Some? then 1 else 0
      ensures r.None? ==> Free() == 0
    {
      var pfn := FREE_START;
      while pfn < FREE_END
        invariant FREE_START <= pfn <= FREE_END
        invariant pageArray[..] == old(pageArray[..])
        invariant forall f :: FREE_START <= f < pfn ==> pageArray[f] != 0
      {
        if pageArray[pfn] == 0 {
          SpareTaken(pageArray[..], pfn);
          pageArray[pfn] := 1;
          return Some(pfn);
        }
        pfn := pfn + 1;
      }
      SpareNone(pageArray[..]);
      return None;
    }

    /** A zeroed frame for the kernel's own use. */
    method TakeZeroPage() returns (r: Option<nat>)
      requires Valid()
      modifies this, pageArray
      ensures r.Some? ==> FreeFrame(old(Img()), r.value) && r.value < FRAMES && Img() == TakeFrame(old(Img()), r.value)
      ensures r.Some? ==> Valid() && Machine() == Grow(old(Machine()), {r.value}) && IsFree(old(Machine()), r.value)
      ensures r.Some? ==> ram[r.value] == ZeroPage() && r.value in kernel && r.value != kpgd
      ensures r.Some? ==> forall k :: k in node ==> node[k] != r.value
      ensures node == old(node) && old(Free()) <= Free() + 1 && (r.None? ==> Free() == 0)
    {
      ghost var m := Img();
      r := GetFreePage();
      if r.Some? {
        ram := ram[r.value := ZeroPage()];
        kernel := kernel + {r.value};
        FreeFrameUnused(m, r.value);
        TakeFrameGrows(m, r.value);
      }
    }

    // -------------------------------------------------------------- tables

    /** Slot i of table t (which is `node[k]`): follow it, or link a new zeroed
        table into it. The three upper levels of every walk do this. */
    method FollowOrMake(ghost k: Key, t: nat, i: nat) returns (r: Option<nat>, ghost fs: set<nat>)
      requires Valid() && k in node && node[k] == t && k.level < 3 && UserSlot(k, i)
      modifies this, pageArray
      ensures r.Some? ==> Valid() && k.Child(i) in node && node[k.Child(i)] == r.value
      ensures r.Some? ==> Machine() == Grow(old(Machine()), fs) && forall f :: f in fs ==> IsFree(old(Machine()), f)
      ensures r.Some? ==> mms == old(mms) && data == old(data) && forall j :: j in old(node) ==>
                j in node && node[j] == old(node[j])
      ensures r.Some? && k.Child(i) in old(node) ==> Img() == old(Img()) && fs == {}
      ensures old(Budget(k.p)) <= Budget(k.p) && old(node).Keys <= node.Keys <= old(node).Keys + {k.Child(i)}
      ensures r.None? ==> node == old(node)
      ensures old(Free()) <= Free() + 1 && (r.None? ==> Free() == 0)
    {
      hide Leaves, Rooted, KernelSlots, Closed, Template, Abs, Spare, Tables;
      ghost var m := Img();
      SlotReads(m, k, i);
      fs := {};
      if ram[t][i] == 0 {
        r := GetFreePage();
        if r.Some? {
          var f := r.value;
          FreeFrameUnused(m, f);
          AddTableGrows(m, k, i, f);
          TableAdded(node, k.Child(i), f);
          ram := ram[f := ZeroPage()];
          ram := ram[t := ram[t][i := Entry(f, TABLE_FLAGS)]];
          kernel := kernel + {f};
          node := node[k.Child(i) := f];
          fs := {f};
          assert Img() == AddTable(m, k, i, f);
        }
      } else {
        r := Some(FrameOf(ram[t][i]));
        GrowNothing(Abs(m));
      }
    }

    /** The leaf table for page v of process p, with every missing level made. */
    method LeafTable(p: nat, v: nat) returns (r: Option<nat>, ghost fs: set<nat>)
      requires Valid() && p in mms && v < USER_PAGES
      modifies this, pageArray
      ensures r.Some? ==> Valid() && PteKey(p, v) in node && node[PteKey(p, v)] == r.value
      ensures r.Some? ==> Machine() == Grow(old(Machine()), fs) && forall f :: f in fs ==> IsFree(old(Machine()), f)
      ensures r.Some? ==> mms == old(mms) && data == old(data)
      ensures old(Free()) <= Free() + 3 && (r.None? ==> Free() == 0)
    {
      hide Good, Abs, Grow, Spare;
      ghost var s := Machine();
      RootsIn(Img(), p);
      KeysFollow(p, v);
      fs := {};
      ghost var f1, f2, f3;
      r, f1 := FollowOrMake(Key(p, 0, 0), mms[p].pgd, PgdOff(v));
      if r.None? { return; }
      r, f2 := FollowOrMake(PudKey(p, v), r.value, PudOff(v));
      if r.None? { return; }
      forall f | f in f2 ensures IsFree(s, f) { FreeBeforeGrow(s, f1, f); }
      GrowTwice(s, f1, f2);
      r, f3 := FollowOrMake(PmdKey(p, v), r.value, PmdOff(v));
      if r.None? { return; }
      forall f | f in f3 ensures IsFree(s, f) { FreeBeforeGrow(s, f1 + f2, f); }
      GrowTwice(s, f1 + f2, f3);
      fs := f1 + f2 + f3;
    }

    // -------------------------------------------------------------- demand mapping

    /** The copy loop of map_a_page: a whole page from the backing memory. */
    static method LoadPage(a: Vma, v: nat) returns (page: Page)
      requires a.backing.File?
      ensures page == Fill(a, v)
    {
      page := ZeroPage();
      var off := a.pgoff + v * PG_SIZE - a.start;
      var i := 0;
      while i < WORDS
        invariant 0 <= i <= WORDS
        invariant forall j :: 0 <= j < i ==> page[j] == Fill(a, v)[j]
      {
        var bytes := seq(8, j requires 0 <= j < 8 => a.backing.byteAt(off + 8 * i + j));
        page := page[i := LittleEndian(bytes)];
        i := i + 1;
      }
    }

    /** put_pte_entry: one leaf slot is overwritten. */
    method PutPte(ghost p: nat, v: nat, t: nat, e: Pte)
      requires Valid() && PteKey(p, v) in node && node[PteKey(p, v)] == t && e.frame in data
      modifies this`ram
      ensures e.frame < FRAMES && Img() == SetLeaf(old(Img()), p, v, e)
      ensures Valid()
    {
      SetLeafGood(Img(), p, v, e);
      ram := ram[t := ram[t][PteOff(v) := PteWord(e)]];
    }

    /** A zeroed frame for user data. */
    method TakeDataPage() returns (r: Option<nat>)
      requires Valid()
      modifies this, pageArray
      ensures r.Some? ==> FreeFrame(old(Img()), r.value) && r.value < FRAMES
      ensures r.Some? ==> Img() == AddData(old(Img()), r.value, ZeroPage())
      ensures r.Some? ==> Valid()
      ensures old(Free()) <= Free() + 1 && (r.None? ==> Free() == 0)
    {
      ghost var m := Img();
      r := GetFreePage();
      if r.Some? {
        ram := ram[r.value := ZeroPage()];
        data := data + {r.value};
        FreeFrameUnused(m, r.value);
        AddDataGood(m, r.value, ZeroPage());
      }
    }

    /** A store into a user data frame. */
    method PutPage(f: nat, page: Page)
      requires Valid() && f in data
      modifies this`ram
      ensures f < FRAMES && Img() == PutData(old(Img()), f, page)
      ensures Valid()
    {
      PutDataGood(Img(), f, page);
      ram := ram[f := page];
    }

    /** map_a_page's work on an empty leaf slot: a frame is taken, mapped, filled
        from the VMA's backing and given its protection. */
    method MapLeaf(p: nat, a: Vma, v: nat, t: nat) returns (ok: bool, ghost g: nat)
      requires Valid() && p in mms && v < USER_PAGES && PteKey(p, v) in node && node[PteKey(p, v)] == t
      modifies this, pageArray
      ensures ok ==> Valid() && mms == old(mms) && p in old(Machine()).procs && IsFree(old(Machine()), g)
      ensures ok ==> Machine() == Demand(old(Machine()), p, v, a, g)
      ensures old(Free()) <= Free() + 1 && (!ok ==> Free() == 0)
    {
      hide Good, Owned, Abs, Demand, Fill, Spare, SetLeaf;
      ghost var m := Img();
      g := 0;
      var frame := TakeDataPage();
      if frame.None? { return false, g; }
      g := frame.value;
      SizesOf(m);
      SizesOf(Img());
      SetLeafSame(Img(), p, v, Pte(g, true, false));
      PutPte(p, v, t, Pte(frame.value, true, false));
      if a.backing.File? {
        var page := LoadPage(a, v);
        PutPage(frame.value, page);
        PutPte(p, v, t, Pte(frame.value, a.rw, false));
      }
      DemandImage(m, p, v, a, g);
      ok := true;
    }

    /** map_a_page: at most the requested page is added, every other translation
        of every process is as before, and the tables stay a tree. */
    method MapAPage(p: nat, a: Vma, addr: nat) returns (ok: bool, ghost fs: set<nat>, ghost g: nat)
      requires Valid() && p in mms && addr / PG_SIZE < USER_PAGES
      modifies this, pageArray
      ensures ok ==> Valid() && mms == old(mms)
      ensures ok ==> forall f :: f in fs ==> IsFree(old(Machine()), f)
      ensures ok && addr / PG_SIZE in old(PtOf(Img(), p)) ==> Machine() == Grow(old(Machine()), fs)
      ensures ok && addr / PG_SIZE !in old(PtOf(Img(), p)) ==>
                && IsFree(Grow(old(Machine()), fs), g) && p in Grow(old(Machine()), fs).procs
                && Machine() == Demand(Grow(old(Machine()), fs), p, addr / PG_SIZE, a, g)
      ensures old(Free()) <= Free() + 4 && (!ok ==> Free() == 0)
    {
      hide Good, Owned, Abs, Demand, Spare, PtOf, Grow, PteOf;
      var v := addr / PG_SIZE;
      g := 0;
      ghost var m := Img();
      PtIs(m, p);
      SizesOf(m);
      var pte;
      pte, fs := LeafTable(p, v);
      if pte.None? { return false, fs, g; }
      HeapKept(Abs(m), fs, p);
      SizesOf(Img());
      LeafPresent(Img(), p, v);
      if ram[pte.value][PteOff(v)] != 0 { return true, fs, g; }
      ok, g := MapLeaf(p, a, v, pte.value);
    }

    // -------------------------------------------------------------- page faults

    /** deduct_page_ref and add_page_ref. */
    method AddPageRef(f: nat, d: int)
      requires Valid() && f < FRAMES && pageArray[f] >= 1 && pageArray[f] + d >= 1
      modifies pageArray
      ensures Free() == old(Free())
      ensures Img() == SetRef(old(Img()), f, old(pageArray[f]) + d) && Valid()
    {
      SetRefGood(Img(), f, pageArray[f] + d);
      SpareKept(pageArray[..], f, pageArray[f] + d);
      pageArray[f] := pageArray[f] + d;
    }

    /** search_vma: the first VMA that contains the address. */
    static method FindVma(vmas: seq<Vma>, addr: nat) returns (r: Option<Vma>)
      ensures r == SearchVma(vmas, addr)
    {
      var i := 0;
      while i < |vmas|
        invariant 0 <= i <= |vmas|
        invariant SearchVma(vmas, addr) == SearchVma(vmas[i..], addr)
      {
        if vmas[i].Contains(addr) { return Some(vmas[i]); }
        i := i + 1;
      }
      return None;
    }

    /** The shared page is copied to a fresh frame and mapped writable. */
    method SplitShared(p: nat, v: nat, t: nat, f: nat) returns (ok: bool, ghost g: nat)
      requires Valid() && p in mms && v < USER_PAGES && PteKey(p, v) in node && node[PteKey(p, v)] == t
      requires p in Machine().procs && v in Machine().procs[p].pt && Machine().procs[p].pt[v].frame == f
      requires f in data && f < FRAMES && pageArray[f] > 1
      modifies this, pageArray
      ensures ok ==> Valid() && mms == old(mms) && IsFree(old(Machine()), g)
      ensures ok ==> f in old(Machine()).mem && f < |old(Machine()).ref| && Machine() == Split(old(Machine()), p, v, g)
      ensures old(Free()) <= Free() + 1 && (!ok ==> Free() == 0)
    {
      hide Good, Owned, Split, Abs, Spare, SetLeaf;
      ghost var m := Img();
      SizesOf(m);
      g := 0;
      var r := TakeDataPage();
      if r.None? { return false, g; }
      g := r.value;
      FreeFrameUnused(m, g);
      PutPage(r.value, ram[f]);
      assert Img() == AddData(m, g, m.ram[f]);
      SizesOf(Img());
      SetLeafSame(Img(), p, v, Pte(g, true, false));
      PutPte(p, v, t, Pte(r.value, true, false));
      AddPageRef(f, -1);
      SplitImage(m, p, v, g);
      assert Img() == SplitStores(m, p, v, f, g);
      ok := true;
    }

    /** page_fault_handler's answer to a write to a page that is mapped but not
        writable; the entry is read and stored through the self-reference. */
    method WriteProtected(p: nat, addr: nat) returns (r: Verdict, ghost g: nat)
      requires Valid() && p in mms && addr / PG_SIZE < USER_PAGES && addr / PG_SIZE in PtOf(Img(), p)
      modifies this, pageArray
      ensures old(Free()) <= Free() + 1 && (r == Panicked ==> Free() == 0)
      ensures (FramesKnown(old(Img()), p); Handle(old(Machine()), p, addr, true).Kill?) ==> r == Killed
      ensures r != Panicked ==> Valid() && mms == old(mms)
      ensures r != Panicked ==>
                (FramesKnown(old(Img()), p); Handled(old(Machine()), Machine(), p, addr, true, {}, g, r))
    {
      hide Good, Owned, Abs, TrickTable, WalkTable, Spare, PtOf, PteOf, Split;
      g := 0;
      ghost var m := Img();
      var v := addr / PG_SIZE;
      SizesOf(m);
      PtIs(m, p);
      FramesKnown(m, p);
      WalkFindsLeaf(m, p, v);
      TrickFindsLeaf(m, p, v);
      LeafPresent(m, p, v);
      var t := TrickTable(ram, mms[p].pgd, v);
      var pte := PteOf(ram[t.value][PteOff(v)]);
      if !pte.cow {
        r := Killed;
      } else if pageArray[pte.frame] > 1 {
        var ok;
        ok, g := SplitShared(p, v, t.value, pte.frame);
        r := if ok then Resumed else Panicked;
      } else {
        PutPte(p, v, t.value, Pte(pte.frame, true, false));
        SetLeafMaps(m, p, v, Pte(pte.frame, true, false));
        r := Resumed;
      }
    }

    /** page_fault_handler. `present` and `rw` are the error-code bits the
        processor reports; a fault in kernel mode panics. */
    method PageFaultHandler(p: nat, addr: nat, user: bool, present: bool, rw: bool)
        returns (r: Verdict, ghost fs: set<nat>, ghost g: nat)
      requires Valid() && p in mms && forall a :: a in mms[p].vmas ==> VmaOk(a)
      requires addr / PG_SIZE < USER_PAGES ==> (present <==> addr / PG_SIZE in PtOf(Img(), p))
      modifies this, pageArray
      ensures !user ==> r == Panicked
      ensures r != Panicked ==> Valid() && mms == old(mms)
      ensures r != Panicked ==>
                (FramesKnown(old(Img()), p); Handled(old(Machine()), Machine(), p, addr, rw, fs, g, r))
      ensures old(Free()) <= Free() + 4 && (user && r == Panicked ==> Free() == 0)
      ensures user && (FramesKnown(old(Img()), p); Handle(old(Machine()), p, addr, rw).Kill?) ==> r == Killed
    {
      hide Good, Owned, Abs, PtOf, Spare, Demand, Split, Clear, Grow;
      fs, g := {}, 0;
      if !user { return Panicked, fs, g; }
      ghost var m := Img();
      FramesKnown(m, p);
      PtIs(m, p);
      MmOf(m, p);
      var v := addr / PG_SIZE;
      if v >= USER_PAGES { KernelHalf(m, p, addr); }
      if !present {
        var vma := FindVma(mms[p].vmas, addr);
        if vma.None? { return Killed, fs, g; }
        var ok;
        InUserHalf(vma.value, addr);
        ok, fs, g := MapAPage(p, vma.value, addr);
        r := if ok then Resumed else Panicked;
      } else if rw && v < USER_PAGES {
        r, g := WriteProtected(p, addr);
      } else {
        // a read, or an entry of the kernel half, which is never copy-on-write
        r := Killed;
      }
    }

    // -------------------------------------------------------------- fork

    /** The stores for one mapped page: both entries, then the reference. */
    method CopyEntry(p: nat, c: nat, a: Vma, v: nat, pte: nat, npte: nat)
      requires Valid() && p in mms && c in mms && p != c && v < USER_PAGES
      requires PteKey(p, v) in node && node[PteKey(p, v)] == pte && PteKey(c, v) in node && node[PteKey(c, v)] == npte
      requires pte < FRAMES && ram[pte][PteOff(v)] != 0
      modifies this`ram, pageArray
      ensures Valid()
      ensures (FramesKnown(old(Img()), p); FramesKnown(old(Img()), c);
               Machine() == CopyPte(old(Machine()), p, c, a, v))
      ensures Free() == old(Free())
    {
      hide Good, Owned, Abs, CopyPte, SetLeaf, PteOf, Spare;
      ghost var m := Img();
      SizesOf(m);
      FramesKnown(m, p);
      FramesKnown(m, c);
      LeafPresent(m, p, v);
      var f := PteOf(ram[pte][PteOff(v)]).frame;
      if a.rw {
        PutPte(p, v, pte, Pte(f, false, true));
      }
      PutPte(c, v, npte, Pte(f, false, a.rw));
      AddPageRef(f, 1);
      CopyImage(m, p, c, a, v, f);
    }

    /** One level of copy_vma_deep's walk: if the parent's table has an entry the
        child's gets one too, made if need be. */
    method Descend(ghost k: Key, ghost j: Key, t: nat, nt: nat, i: nat)
        returns (ok: bool, e: Option<(nat, nat)>, ghost fs: set<nat>)
      requires Valid() && k in node && node[k] == t && j in node && node[j] == nt
      requires k.level == j.level < 3 && k.n == j.n && k.p != j.p && UserSlot(k, i) && Matched(node, k.p, j.p)
      modifies this, pageArray
      ensures ok ==> Valid() && mms == old(mms) && (forall q :: q in old(node) ==> q in node && node[q] == old(node[q]))
      ensures ok ==> Machine() == Grow(old(Machine()), fs) && forall f :: f in fs ==> IsFree(old(Machine()), f)
      ensures ok && e.None? ==> k.Child(i) !in node
      ensures ok && e.Some? ==> k.Child(i) in node && node[k.Child(i)] == e.value.0
      ensures ok && e.Some? ==> j.Child(i) in node && node[j.Child(i)] == e.value.1
      ensures Matched(node, k.p, j.p) && Tables(node, k.p) == Tables(old(node), k.p)
      ensures old(Budget(j.p)) <= Budget(j.p) && (!ok ==> Free() == 0)
    {
      hide Good, Owned, Abs, Grow, Spare, Tables, Matched, Entry, FrameOf;
      ghost var m := Img();
      fs := {};
      GrowNothing(Machine());
      SlotReads(m, k, i);
      SizesOf(m);
      if ram[t][i] == 0 { return true, None, fs; }
      var child := FrameOf(ram[t][i]);
      var r;
      ghost var before := node;
      r, fs := FollowOrMake(j, nt, i);
      StillMatched(before, node, k, j, i);
      if r.None? { return false, None, fs; }
      return true, Some((child, r.value)), fs;
    }

    /** The leaf tables of page v in the parent and, as far down as the parent has
        tables, in the child. */
    method LeafTables(p: nat, c: nat, v: nat) returns (ok: bool, e: Option<(nat, nat)>, ghost fs: set<nat>)
      requires Valid() && p in mms && c in mms && p != c && v < USER_PAGES && Matched(node, p, c)
      modifies this, pageArray
      ensures ok ==> Valid() && mms == old(mms)
      ensures ok ==> Machine() == Grow(old(Machine()), fs) && forall f :: f in fs ==> IsFree(old(Machine()), f)
      ensures ok && e.None? ==> PudKey(p, v) !in node || PmdKey(p, v) !in node || PteKey(p, v) !in node
      ensures ok && e.Some? ==> PteKey(p, v) in node && node[PteKey(p, v)] == e.value.0
      ensures ok && e.Some? ==> PteKey(c, v) in node && node[PteKey(c, v)] == e.value.1
      ensures Matched(node, p, c) && Tables(node, p) == Tables(old(node), p)
      ensures old(Budget(c)) <= Budget(c) && (!ok ==> Free() == 0)
    {
      hide Good, Abs, Grow, Spare, Matched, Tables;
      ghost var s := Machine();
      KeysFollow(p, v);
      KeysFollow(c, v);
      RootsIn(Img(), p);
      RootsIn(Img(), c);
      ok, e, fs := Descend(Key(p, 0, 0), Key(c, 0, 0), mms[p].pgd, mms[c].pgd, PgdOff(v));
      if !ok || e.None? { return; }
      ghost var more;
      ok, e, more := Descend(PudKey(p, v), PudKey(c, v), e.value.0, e.value.1, PudOff(v));
      if !ok { return; }
      GrowFree(s, fs, more);
      fs := fs + more;
      if e.None? { return; }
      ok, e, more := Descend(PmdKey(p, v), PmdKey(c, v), e.value.0, e.value.1, PmdOff(v));
      if !ok { return; }
      GrowFree(s, fs, more);
      fs := fs + more;
    }

    /** One iteration of copy_vma_deep: the child gets tables as far down as the
        parent has them, and an entry if the parent has one. */
    method CopyPage(p: nat, c: nat, a: Vma, v: nat) returns (ok: bool, ghost fs: set<nat>)
      requires Valid() && p in mms && c in mms && p != c && v < USER_PAGES && Matched(node, p, c)
      modifies this, pageArray
      ensures ok ==> Valid() && mms == old(mms)
      ensures ok ==> forall f :: f in fs ==> IsFree(old(Machine()), f)
      ensures ok ==> CopyOk(Grow(old(Machine()), fs), p, c, v)
      ensures ok ==> Machine() == CopyPte(Grow(old(Machine()), fs), p, c, a, v)
      ensures Matched(node, p, c) && Tables(node, p) == Tables(old(node), p)
      ensures old(Budget(c)) <= Budget(c) && (!ok ==> Free() == 0)
    {
      hide Good, Abs, PteOf, Grow, CopyPte, Spare, Matched, Tables;
      var e;
      ok, e, fs := LeafTables(p, c, v);
      if !ok { return; }
      ghost var m := Img();
      FramesKnown(m, p);
      FramesKnown(m, c);
      SizesOf(m);
      if e.None? {
        NoTableNoPage(m, p, v);
        CopyAbsent(Machine(), p, c, a, v);
        return;
      }
      RootsIn(m, p);
      LeafPresent(m, p, v);
      if ram[e.value.0][PteOff(v)] == 0 {
        CopyAbsent(Machine(), p, c, a, v);
      } else {
        CopyEntry(p, c, a, v, e.value.0, e.value.1);
      }
    }

    /** copy_vma_deep: every page of VMA k, in order. */
    method CopyVmaDeep(p: nat, c: nat, a: Vma, ghost s0: State, ghost k: nat, ghost fs0: set<nat>)
        returns (ok: bool, ghost fs: set<nat>)
      requires Valid() && p in mms && c in mms && p != c && VmaOk(a) && Inv(s0) && Matched(node, p, c)
      requires ForkAt(s0, Machine(), p, c, k, FirstPage(a), fs0) && k < |s0.procs[p].vmas| && s0.procs[p].vmas[k] == a
      modifies this, pageArray
      ensures ok ==> Valid() && mms == old(mms)
      ensures ok ==> exists i :: EndPage(a) <= i && ForkAt(s0, Machine(), p, c, k, i, fs)
      ensures Matched(node, p, c) && Tables(node, p) == Tables(old(node), p)
      ensures old(Budget(c)) <= Budget(c) && (!ok ==> Free() == 0)
    {
      hide Good, Abs, Grow, CopyPte, PartialFork, Inv, ForkAt, Matched, Tables, Spare;
      fs := fs0;
      var i := a.start / PG_SIZE;
      while i <= (a.end - 1) / PG_SIZE
        invariant FirstPage(a) <= i
        invariant Matched(node, p, c) && Tables(node, p) == Tables(old(node), p) && old(Budget(c)) <= Budget(c)
        invariant Valid() && mms == old(mms) && ForkAt(s0, Machine(), p, c, k, i, fs)
      {
        ghost var t, more := Machine(), {};
        ok, more := CopyPage(p, c, a, i);
        if !ok { return; }
        ForkTake(s0, t, p, c, k, i, fs, more);
        fs := fs + more;
        ForkPage(s0, Grow(t, more), p, c, k, i, fs);
        i := i + 1;
      }
      ok := true;
    }

    method LinkVma(c: nat, a: Vma)
      requires Valid() && c in mms
      modifies this`mms
      ensures Valid() && mms == old(mms)[c := old(mms)[c].(vmas := old(mms)[c].vmas + [a])]
      ensures c in old(Machine()).procs
      ensures var s := old(Machine());
              Machine() == s.(procs := s.procs[c := s.procs[c].(vmas := s.procs[c].vmas + [a])])
    {
      hide Good, Owned, Abs;
      SizesOf(Img());
      FramesKnown(Img(), c);
      AppendVmaMaps(Img(), c, a);
      mms := mms[c := mms[c].(vmas := mms[c].vmas + [a])];
    }

    /** copy_mm: VMA by VMA, each with a fresh descriptor. */
    method CopyMm(p: nat, c: nat, ghost s0: State, ghost fs0: set<nat>) returns (ok: bool, ghost fs: set<nat>)
      requires Valid() && p in mms && c in mms && p != c && Inv(s0) && Matched(node, p, c)
      requires p in s0.procs && s0.procs[p].vmas == mms[p].vmas
      requires ForkAt(s0, Machine(), p, c, 0, 0, fs0)
      modifies this, pageArray
      ensures ok ==> Valid() && p in s0.procs && Machine() == Grow(CowMachine.Fork(s0, p, c), fs)
      ensures ok ==> forall f :: f in fs ==> IsFree(s0, f)
      ensures Matched(node, p, c) && Tables(node, p) == Tables(old(node), p)
      ensures old(Budget(c)) <= Budget(c) + |old(mms[p].vmas)| && (!ok ==> Free() == 0)
    {
      hide Good, Abs, Grow, PartialFork, CowMachine.Fork, Matched, Tables, Spare, ForkAt;
      var vmas := mms[p].vmas;
      fs := fs0;
      var k := 0;
      ghost var i := 0;
      while k < |vmas|
        invariant 0 <= k <= |vmas| && p in mms && c in mms
        invariant k < |vmas| ==> i <= FirstPage(vmas[k])
        invariant Matched(node, p, c) && Tables(node, p) == Tables(old(node), p) && old(Budget(c)) <= Budget(c) + k
        invariant Valid() && ForkAt(s0, Machine(), p, c, k, i, fs)
      {
        assert VmaOk(vmas[k]);
        ghost var t := Machine();
        var d := TakeZeroPage();
        if d.None? { return false, fs; }
        ForkTake(s0, t, p, c, k, i, fs, {d.value});
        fs := fs + {d.value};
        ForkSkip(s0, Machine(), p, c, k, i, FirstPage(vmas[k]), fs);
        ok, fs := CopyVmaDeep(p, c, vmas[k], s0, k, fs);
        if !ok { return; }
        ghost var end: int :| EndPage(vmas[k]) <= end && ForkAt(s0, Machine(), p, c, k, end, fs);
        ForkNextVma(s0, Machine(), p, c, k, end, 0, fs);
        LinkVma(c, vmas[k]);
        i := 0;
        k := k + 1;
      }
      ForkDone(s0, Machine(), p, c, i, fs);
      ok := true;
    }

    /** alloc_pgd: the kernel's directory copied into a fresh frame, with the
        self-reference in slot 0x1fe. */
    method AllocPgd() returns (r: Option<nat>)
      requires Valid()
      modifies this, pageArray
      ensures r.Some? ==> Valid() && Machine() == Grow(old(Machine()), {r.value}) && IsFree(old(Machine()), r.value)
      ensures r.Some? ==> mms == old(mms) && r.value < FRAMES
      ensures r.Some? ==> r.value in kernel && r.value != kpgd && forall k :: k in node ==> node[k] != r.value
      ensures r.Some? ==> KernelHalfOf(Img(), r.value)
      ensures r.Some? ==> forall i :: 0 <= i < USER_SLOTS ==> ram[r.value][i] == 0
      ensures node == old(node) && old(Free()) <= Free() + 1 && (r.None? ==> Free() == 0)
    {
      hide Good, Owned, Abs, Grow, Entry;
      r := TakeZeroPage();
      if r.Some? {
        ghost var m := Img();
        SizesOf(m);
        TemplateIs(m);
        ram := ram[r.value := ram[kpgd]];
        ram := ram[r.value := ram[r.value][SELF_REF_INDEX := Entry(r.value, SELF_FLAGS)]];
        KernelPageStored(m, r.value, ram[r.value]);
        assert Img() == m.(ram := m.ram[r.value := ram[r.value]]);
      }
    }

    /** n zeroed frames for descriptors and stacks. */
    method TakeZeroPages(n: nat) returns (ok: bool, ghost fs: set<nat>)
      requires Valid()
      modifies this, pageArray
      ensures ok ==> Valid() && mms == old(mms) && Machine() == Grow(old(Machine()), fs)
      ensures ok ==> forall f :: f in fs ==> IsFree(old(Machine()), f)
      ensures node == old(node) && old(Free()) <= Free() + n && (!ok ==> Free() == 0)
    {
      hide Good, Abs, Grow;
      ghost var s := Machine();
      fs := {};
      GrowNothing(s);
      for i := 0 to n
        invariant Valid() && mms == old(mms) && Machine() == Grow(s, fs) && forall f :: f in fs ==> IsFree(s, f)
        invariant node == old(node) && old(Free()) <= Free() + i
      {
        var d := TakeZeroPage();
        if d.None? { return false, fs; }
        FreeBeforeGrow(s, fs, d.value);
        GrowTwice(s, fs, {d.value});
        fs := fs + {d.value};
      }
      ok := true;
    }

    /** fork: task_struct, kernel stack, mm_struct, a directory and copy_mm.
        Whatever the VMAs overlap, the result is the closed form of fork, with the
        kernel's frames taken. */
    method ForkProcess(p: nat, c: nat) returns (ok: bool, ghost fs: set<nat>)
      requires Valid() && Inv(Machine()) && p in mms && c !in mms
      modifies this, pageArray
      ensures ok ==> Valid() && p in old(Machine()).procs && c !in old(Machine()).procs
      ensures ok ==> Machine() == Grow(CowMachine.Fork(old(Machine()), p, c), fs)
      ensures ok ==> forall f :: f in fs ==> IsFree(old(Machine()), f)
      ensures old(Free()) <= Free() + 4 + |old(mms[p].vmas)| + |Tables(old(node), p)| && (!ok ==> Free() == 0)
    {
      hide Good, Abs, Grow, ForkAt, CowMachine.Fork, Inv, Tables, Matched, Spare;
      ghost var s, m := Machine(), Img();
      MmOf(Img(), p);
      MmOf(Img(), c);
      ok, fs := TakeZeroPages(3);
      if !ok { return; }
      var pgd := AllocPgd();
      if pgd.None? { return false, fs; }
      FreeBeforeGrow(s, fs, pgd.value);
      GrowTwice(s, fs, {pgd.value});
      fs := fs + {pgd.value};
      NewProcess(c, pgd.value, mms[p].heap);
      ForkBegins(s, p, c, fs);
      HeapKept(s, fs, p);
      FreshChild(m, p, c, pgd.value);
      ok, fs := CopyMm(p, c, s, fs);
      MatchedCount(node, p, c);
    }

    /** The new process appears with an empty directory and no VMA. */
    method NewProcess(c: nat, pgd: nat, heap: nat)
      requires Valid() && c !in mms && pgd in kernel && pgd != kpgd && pgd < FRAMES
      requires forall k :: k in node ==> node[k] != pgd
      requires KernelHalfOf(Img(), pgd)
      requires forall i :: 0 <= i < USER_SLOTS ==> ram[pgd][i] == 0
      modifies this
      ensures Valid() && mms == old(mms)[c := Mm(pgd, [], heap)] && node == old(node)[Key(c, 0, 0) := pgd]
      ensures Machine() == old(Machine()).(procs := old(Machine()).procs[c := Proc([], heap, map[])])
    {
      hide Linked, Leaves, Closed;
      AddRootMaps(Img(), c, Mm(pgd, [], heap));
      node := node[Key(c, 0, 0) := pgd];
      mms := mms[c := Mm(pgd, [], heap)];
    }

    /** exit, and the first half of exec: the tables are dropped as they are. */
    method DropProcess(p: nat)
      requires Valid()
      modifies this
      ensures Valid() && mms == old(mms) - {p} && Machine() == CowMachine.Exit(old(Machine()), p)
      ensures kernel == old(kernel) && ram == old(ram) && forall k :: k in node ==>
                k in old(node) && node[k] == old(node[k])
    {
      hide Good, Abs, CowMachine.Exit;
      DropTablesMaps(Img(), p);
      mms := mms - {p};
      node := map k | k in node && k.p != p :: node[k];
    }

    /** exec up to its VMA list: a new directory and one descriptor per VMA; the
        old tables and frames are dropped, not given back. */
    method ExecProcess(p: nat, vmas: seq<Vma>, heap: nat) returns (ok: bool, ghost fs: set<nat>)
      requires Valid()
      modifies this, pageArray
      ensures ok ==> Valid() && Machine() == Grow(CowMachine.Exec(old(Machine()), p, vmas, heap), fs)
      ensures ok ==> forall f :: f in fs ==> IsFree(old(Machine()), f)
      ensures old(Free()) <= Free() + 4 + |vmas| && (!ok ==> Free() == 0)
    {
      hide Good, Abs, Grow, CowMachine.Exec, CowMachine.Exit;
      ghost var s := Machine();
      ok, fs := TakeZeroPages(3);   // kbuf, the kernel stack and mm_struct
      if !ok { return; }
      var pgd := AllocPgd();
      if pgd.None? { return false, fs; }
      FreeBeforeGrow(s, fs, pgd.value);
      GrowTwice(s, fs, {pgd.value});
      fs := fs + {pgd.value};
      DropProcess(p);
      NewProcess(p, pgd.value, heap);
      ExecBegins(s, p, heap, fs);
      var k := 0;
      while k < |vmas|
        invariant 0 <= k <= |vmas| && p in mms && Valid() && old(Free()) <= Free() + 4 + k
        invariant Machine() == Grow(CowMachine.Exec(s, p, vmas[..k], heap), fs) && forall f :: f in fs ==> IsFree(s, f)
      {
        ghost var t := CowMachine.Exec(s, p, vmas[..k], heap);
        var d := TakeZeroPage();
        if d.None? { return false, fs; }
        FreeBeforeGrow(t, fs, d.value);
        ExecFree(s, p, vmas[..k], heap, d.value);
        GrowTwice(t, fs, {d.value});
        fs := fs + {d.value};
        LinkVma(p, vmas[k]);
        ExecLinks(s, p, vmas, heap, k, fs);
        k := k + 1;
      }
      assert vmas[..k] == vmas;
      ok := true;
    }

    /** brk. The break argument 0 asks for the current break; otherwise each call
        above the heap start appends a VMA, since mm->brk is never stored; all
        other arguments panic. */
    method BrkProcess(p: nat, newBreak: nat) returns (r: Option<nat>, ghost fs: set<nat>)
      requires Valid() && p in mms
      modifies this, pageArray
      ensures newBreak == 0 ==> r == Some(old(mms[p].heap)) && Img() == old(Img()) && fs == {}
      ensures newBreak != 0 && r.Some? ==> r.value == newBreak && old(mms[p].heap) < newBreak < HEAP_LIMIT && Valid()
      ensures newBreak != 0 && r.Some? ==> p in Grow(old(Machine()), fs).procs && forall f :: f in fs ==>
                IsFree(old(Machine()), f)
      ensures newBreak != 0 && r.Some? ==> Machine() == Brk(Grow(old(Machine()), fs), p, newBreak)
      ensures old(Free()) <= Free() + 1
      ensures r.None? ==> newBreak != 0 && (newBreak <= old(mms[p].heap) || newBreak >= HEAP_LIMIT || Free() == 0)
    {
      hide Good, Abs, Grow;
      fs := {};
      var cur := mms[p].heap;   // mm->brk still equals mm->user_heap
      if newBreak == 0 {
        return Some(cur), fs;
      } else if newBreak > cur && newBreak < HEAP_LIMIT {
        MmOf(Img(), p);
        var d := TakeZeroPage();
        if d.None? { return None, fs; }
        fs := {d.value};
        MmOf(Img(), p);
        HeapKept(old(Machine()), fs, p);
        LinkVma(p, Vma(cur, newBreak, true, Anonymous, 0, 0));
        r := Some(newBreak);
      } else {
        r := None;   // heap limit reached, or shrinking: panic
      }
    }

    /** A user-mode access as the processor decides it from the words of the tables. */
    method Probe(p: nat, v: nat, write: bool) returns (r: Translation)
      requires Valid() && p in mms && v < USER_PAGES
      ensures p in Machine().procs && r == Translate(ram, mms[p].pgd, Indices(v), true, write)
      ensures r == Expected(Machine(), p, v, write)
      ensures r != Fault(false) <==> v in PtOf(Img(), p)
    {
      hide Good, Translate;
      SizesOf(Img());
      HardwareIsMmu(Img(), p, v, write);
      r := Translate(ram, mms[p].pgd, Indices(v), true, write);
    }

    /** A load that the processor grants. */
    method Load(p: nat, v: nat, i: nat) returns (w: Word)
      requires Valid() && p in mms && v < USER_PAGES && i < WORDS
      requires p in Machine().procs && Mmu(Machine(), p, v, false).Granted?
      ensures Machine().procs[p].pt[v].frame in Machine().mem && w == Machine().mem[Machine().procs[p].pt[v].frame][i]
    {
      hide Good, Translate;
      SizesOf(Img());
      HardwareIsMmu(Img(), p, v, false);
      FramesKnown(Img(), p);
      var t := Translate(ram, mms[p].pgd, Indices(v), true, false);
      w := ram[t.frame][i];
    }

    /** A store that the processor grants. */
    method Put(p: nat, v: nat, i: nat, w: Word)
      requires Valid() && p in mms && v < USER_PAGES && i < WORDS
      requires p in Machine().procs && Mmu(Machine(), p, v, true).Granted?
      modifies this`ram
      ensures Valid() && old(Machine()).procs[p].pt[v].frame in old(Machine()).mem
              && Machine() == Store(old(Machine()), p, v, i, w)
    {
      hide Good, Translate;
      ghost var m := Img();
      SizesOf(m);
      HardwareIsMmu(m, p, v, true);
      FramesKnown(m, p);
      var t := Translate(ram, mms[p].pgd, Indices(v), true, true);
      PutDataGood(m, t.frame, ram[t.frame][i := w]);
      PutPage(t.frame, ram[t.frame][i := w]);
    }
  }
}
