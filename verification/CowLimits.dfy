/** Where the copy-on-write machine is exact, and where it is not: reference
    counts equal mappings as long as VMAs share no page and nothing is dropped,
    and a VMA list that gives one page two protections breaks the refinement. */
module CowLimits {
  import opened Basics
  import opened CowMachine
  import opened CowInvariant
  import opened PrivateMemory

  // ---------------------------------------------------------------- exact counts

  ghost predicate PageDisjoint(vmas: seq<Vma>) {
    forall j, k, v {:trigger vmas[j].Touches(v), vmas[k].Touches(v)} ::
      0 <= j < |vmas| && 0 <= k < |vmas| && vmas[j].Touches(v) && vmas[k].Touches(v) ==> j == k
  }

  /** Every data frame has exactly as many references as mappings. */
  ghost predicate Exact(s: State) {
    && (forall p :: p in s.procs ==> PageDisjoint(s.procs[p].vmas))
    && (forall f {:trigger Mappers(s, f)} :: f in s.mem ==> f < |s.ref| && s.ref[f] == |Mappers(s, f)|)
  }

  /** So no data frame is lost: each one is still mapped somewhere. */
  lemma ExactMeansMapped(s: State, f: nat)
    requires Inv(s) && Exact(s) && f in s.mem
    ensures Mappers(s, f) != {}
  {
    assert s.ref[f] == |Mappers(s, f)|;
  }

  lemma DemandExact(s: State, p: nat, v: nat, a: Vma, g: nat)
    requires Inv(s) && Exact(s) && p in s.procs && v !in s.procs[p].pt && IsFree(s, g)
    ensures Exact(Demand(s, p, v, a, g))
  {
    var t := Demand(s, p, v, a, g);
    FreeMeansUnused(s, g);
    forall f | f in t.mem ensures t.ref[f] == |Mappers(t, f)| { InsertCount(s, t, p, v, t.procs[p].pt[v], f); }
  }

  lemma SplitExact(s: State, p: nat, v: nat, g: nat)
    requires Inv(s) && Exact(s) && Maps(s, p, v) && s.ref[At(s, p, v).frame] > 1 && IsFree(s, g)
    ensures At(s, p, v).frame in s.mem && Exact(Split(s, p, v, g))
  {
    FreeMeansUnused(s, g);
    var t := Split(s, p, v, g);
    forall h | h in t.mem ensures h < |t.ref| && t.ref[h] == |Mappers(t, h)| {
      MoveCount(s, t, p, v, Pte(g, true, false), h);
    }
  }

  lemma SameMappersExact(s: State, t: State)
    requires Exact(s) && t.procs.Keys == s.procs.Keys && t.mem.Keys == s.mem.Keys
    requires forall p :: p in s.procs ==> t.procs[p].vmas == s.procs[p].vmas
    requires forall f :: f in s.mem ==>
               f < |t.ref| && f < |s.ref| && t.ref[f] == s.ref[f] && Mappers(t, f) == Mappers(s, f)
    ensures Exact(t)
  {
  }

  lemma ClearExact(s: State, p: nat, v: nat)
    requires Inv(s) && Exact(s) && Maps(s, p, v)
    ensures Exact(Clear(s, p, v))
  {
    var t := Clear(s, p, v);
    forall f | f in s.mem ensures Mappers(t, f) == Mappers(s, f) {
      RemapMappers(s, t, p, v, t.procs[p].pt[v], f);
    }
    SameMappersExact(s, t);
  }

  /** fork keeps the counts exact because page-disjoint VMAs visit a page once. */
  lemma ForkExact(s: State, p: nat, c: nat)
    requires Inv(s) && Exact(s) && p in s.procs && c !in s.procs
    ensures Exact(Fork(s, p, c))
  {
    var t := Fork(s, p, c);
    var q := s.procs[p];
    forall f | f in t.mem ensures t.ref[f] == |Mappers(t, f)| {
      ForkReferences(s, p, c, f);
      forall x, y | x in Copies(q, f) && y in Copies(q, f) && x.1 == y.1 ensures x == y {
        assert q.vmas[x.0].Touches(x.1) && q.vmas[y.0].Touches(x.1);
      }
    }
  }

  /** Steps of the closed subset: accesses that do not fault fatally, fork, and
      the kernel's own allocations. */
  predicate Ordinary(op: Op) {
    op.Read? || op.Write? || op.ForkTo? || op.KernelTake? || op.KernelGive?
  }

  lemma AccessExact(s: State, p: nat, addr: nat, write: bool, g: nat)
    requires Inv(s) && Exact(s) && p in s.procs && g < FRAMES
    requires (InMem(s, p); NeedsFrame(s, p, addr, write) ==> IsFree(s, g))
    ensures (InMem(s, p); Exact(Access(s, p, addr, write, g).0))
  {
    hide Exact, Inv, Mappers;
    InMem(s, p);
    var v := addr / PG_SIZE;
    if !Mmu(s, p, v, write).Granted? {
      match Handle(s, p, addr, write)
      case MapPage(a) => DemandExact(s, p, v, a, g);
      case SplitPage => assert Maps(s, p, v); SplitExact(s, p, v, g);
      case ClearCow => ClearExact(s, p, v);
      case Kill =>
    }
  }

  lemma StoreExact(s: State, p: nat, v: nat, i: nat, w: Word)
    requires Inv(s) && Exact(s) && Maps(s, p, v) && At(s, p, v).frame in s.mem && i < 512
    ensures Exact(Store(s, p, v, i, w))
  {
    SameMappersExact(s, Store(s, p, v, i, w));
  }

  lemma GrowExact(s: State, fs: set<nat>)
    requires Inv(s) && Exact(s) && forall f :: f in fs ==> f !in s.mem
    ensures Exact(Grow(s, fs))
  {
    SameMappersExact(s, Grow(s, fs));
  }

  lemma ReleaseExact(s: State, f: nat)
    requires Inv(s) && Exact(s) && f in s.kernel && s.ref[f] == 1
    ensures Exact(Release(s, f))
  {
    SameMappersExact(s, Release(s, f));
  }

  lemma StepExact(s: State, op: Op)
    requires Inv(s) && Exact(s) && Enabled(s, op) && Ordinary(op) && Real(s, op).1 != SegFault
    ensures Exact(Real(s, op).0)
  {
    hide Exact, Mappers, Placed, Exclusive, VmasOk, Counted, Access;
    match op
    case Read(p, addr, g) => AccessExact(s, p, addr, false, g);
    case Write(p, addr, w, g) =>
      InMem(s, p);
      AccessExact(s, p, addr, true, g);
      var t := Access(s, p, addr, true, g).0;
      AccessKeepsInv(s, p, addr, true, g);
      StoreExact(t, p, addr / PG_SIZE, addr % PG_SIZE / 8, w);
    case ForkTo(p, c) => ForkExact(s, p, c);
    case KernelTake(fs) =>
      forall f | f in fs ensures f !in s.mem { FreeMeansUnused(s, f); }
      GrowExact(s, fs);
    case KernelGive(f) => ReleaseExact(s, f);
  }

  /** On runs of accesses, demand faults, copy-on-write faults and forks over
      page-disjoint VMAs, references equal mappings at every point. */
  lemma {:induction false} RunExact(s: State, ops: seq<Op>)
    requires Inv(s) && Exact(s) && Possible(s, ops)
    requires forall op :: op in ops ==> Ordinary(op)
    requires SegFault !in RealRun(s, ops).1
    ensures Exact(RealRun(s, ops).0)
    decreases |ops|
  {
    if ops != [] {
      StepKeepsInv(s, ops[0]);
      var t := Real(s, ops[0]).0;
      var outs := RealRun(t, ops[1..]).1;
      assert RealRun(s, ops).1 == [Real(s, ops[0]).1] + outs;
      assert RealRun(s, ops).1[0] != SegFault;
      forall o | o in outs ensures o in RealRun(s, ops).1 {
        var i :| 0 <= i < |outs| && outs[i] == o;
        assert RealRun(s, ops).1[i + 1] == o;
      }
      StepExact(s, ops[0]);
      RunExact(t, ops[1..]);
    }
  }

  // ---------------------------------------------------------------- mixed protections

  /** VMAs of different protection share no page. */
  ghost predicate Uniform(vmas: seq<Vma>) {
    forall a, b, v {:trigger a.Touches(v), b.Touches(v)} :: a in vmas && b in vmas && a.Touches(v) && b.Touches(v) ==>
      a.rw == b.rw
  }

  lemma FoundTouches(vmas: seq<Vma>, addr: nat)
    requires SearchVma(vmas, addr).Some?
    ensures var a := SearchVma(vmas, addr).value; a in vmas && a.Touches(addr / PG_SIZE)
  {
  }

  lemma {:induction false} LastAgrees(vmas: seq<Vma>, v: nat)
    requires Uniform(vmas)
    ensures LastRw(vmas, v) <==> SomeRw(vmas, v)
  {
    if vmas != [] {
      var n := |vmas| - 1;
      LastAgrees(vmas[..n], v);
      if vmas[n].Touches(v) {
        assert vmas[n].rw ==> SomeRw(vmas, v);
      } else {
        forall a | a in vmas && a.Touches(v) ensures a in vmas[..n] {}
        assert SomeRw(vmas, v) <==> SomeRw(vmas[..n], v);
      }
    }
  }

  /** A list in which VMAs of different protection share no page, and with no
      read-only VMA from the heap on, is one the refinement is proved for. */
  lemma UniformIsConsistent(vmas: seq<Vma>, heap: nat)
    requires Uniform(vmas)
    requires forall a, v {:trigger a.Touches(v)} :: a in vmas && a.Touches(v) && heap / PG_SIZE <= v ==> a.rw
    ensures Consistent(vmas, heap)
  {
    forall v | Mappable(vmas, v) && HeapPage(heap, v) ensures SomeRw(vmas, v) {
      var addr: nat :| SearchVma(vmas, addr).Some? && addr / PG_SIZE == v;
      FoundTouches(vmas, addr);
      var k :| 0 <= k < |vmas| && vmas[k] == SearchVma(vmas, addr).value;
      assert vmas[k].Touches(v) && vmas[k].rw;
    }
    forall v ensures LastRw(vmas, v) <==> SomeRw(vmas, v) { LastAgrees(vmas, v); }
    forall addr: nat | SearchVma(vmas, addr).Some?
      ensures SearchVma(vmas, addr).value.rw <==> SomeRw(vmas, addr / PG_SIZE)
    {
      FoundTouches(vmas, addr);
    }
  }

  /** A first write to an unmapped page: the kernel lets it through exactly when
      the first VMA holding the address is writable, private memory when some VMA
      of the page is. */
  lemma FirstWriteVerdict(s: State, p: nat, addr: nat, w: Word, g: nat)
    requires Inv(s) && p in s.procs && addr / PG_SIZE !in s.procs[p].pt && IsFree(s, g)
    requires SearchVma(s.procs[p].vmas, addr).Some?
    ensures Enabled(s, Write(p, addr, w, g))
    ensures Real(s, Write(p, addr, w, g)).1 == SegFault <==> !SearchVma(s.procs[p].vmas, addr).value.rw
    ensures Ideal(View(s), Write(p, addr, w, g)).1 == SegFault <==> !SomeRw(s.procs[p].vmas, addr / PG_SIZE)
  {
    InMem(s, p);
    assert VmaOk(SearchVma(s.procs[p].vmas, addr).value);
  }

  lemma ForkedEntry(s: State, p: nat, c: nat, v: nat)
    requires Inv(s) && p in s.procs && c !in s.procs && v in s.procs[p].pt
    ensures c in Fork(s, p, c).procs && v in Fork(s, p, c).procs[c].pt && !Fork(s, p, c).procs[c].pt[v].writable
    ensures Fork(s, p, c).procs[c].pt[v].cow == LastRw(s.procs[p].vmas, v)
    ensures Fork(s, p, c).procs[c].vmas == s.procs[p].vmas
  {
    assert Maps(s, p, v);
  }

  /** A write by a freshly forked child to a page its parent had: the kernel lets
      it through exactly when the last VMA touching the page is writable. */
  lemma ForkedWriteVerdict(s: State, p: nat, c: nat, addr: nat, w: Word, g: nat)
    requires Inv(s) && p in s.procs && c !in s.procs && addr / PG_SIZE in s.procs[p].pt
    requires Inv(Fork(s, p, c)) && g < FRAMES && (LastRw(s.procs[p].vmas, addr / PG_SIZE) ==> IsFree(Fork(s, p, c), g))
    ensures Enabled(Fork(s, p, c), Write(c, addr, w, g))
    ensures Real(Fork(s, p, c), Write(c, addr, w, g)).1 == SegFault <==> !LastRw(s.procs[p].vmas, addr / PG_SIZE)
    ensures Ideal(View(Fork(s, p, c)), Write(c, addr, w, g)).1 == SegFault <==> !SomeRw(s.procs[p].vmas, addr / PG_SIZE)
  {
    hide Fork, LastRw, SomeRw, Placed, Exclusive, Counted, VmasOk;
    ForkedEntry(s, p, c, addr / PG_SIZE);
    InMem(Fork(s, p, c), c);
  }
}
