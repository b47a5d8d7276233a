/** The exact condition for copy-on-write to refine private memory: which VMA lists
    exec may be given, and a run that goes wrong for each of the others. */
module CowExactness {
  import opened Basics
  import opened CowMachine
  import opened CowInvariant
  import opened PrivateMemory
  import opened CowLimits

  // ---------------------------------------------------------------- runs that differ

  /** A run that is possible and whose last answer is x on the real machine and y
      on private memory. */
  ghost predicate Ends(s: State, ops: seq<Op>, x: Output, y: Output)
    requires Inv(s)
  {
    && Possible(s, ops)
    && var a, b := RealRun(s, ops).1, IdealRun(View(s), ops).1;
    && |a| == |b| == |ops| > 0 && a[|a| - 1] == x && b[|b| - 1] == y
  }

  lemma EndsNow(s: State, op: Op)
    requires Inv(s) && Enabled(s, op)
    ensures Ends(s, [op], Real(s, op).1, Ideal(View(s), op).1)
  {
    hide Inv, Enabled, Real, Ideal, View;
    StepKeepsInv(s, op);
    var t, n := Real(s, op).0, Ideal(View(s), op).0;
    assert [op][1..] == [] && Possible(t, []);
    assert RealRun(t, []) == (t, []) && IdealRun(n, []) == (n, []);
  }

  /** A step that both machines take alike may come first. */
  lemma EndsAfter(s: State, op: Op, ops: seq<Op>, x: Output, y: Output)
    requires Inv(s) && Enabled(s, op) && Inv(Real(s, op).0) && View(Real(s, op).0) == Ideal(View(s), op).0
    requires Ends(Real(s, op).0, ops, x, y)
    ensures Ends(s, [op] + ops, x, y)
  {
    hide Inv, Enabled, Real, Ideal, View;
    assert ([op] + ops)[1..] == ops && ([op] + ops)[0] == op;
  }

  // ---------------------------------------------------------------- the three ways to go wrong

  /** The first VMA that holds an address is read-only in a page that another may write. */
  lemma HiddenWrite(s: State, p: nat, addr: nat, w: Word, g: nat)
    requires Inv(s) && p in s.procs && addr / PG_SIZE !in s.procs[p].pt && IsFree(s, g)
    requires SearchVma(s.procs[p].vmas, addr).Some? && !SearchVma(s.procs[p].vmas, addr).value.rw
    requires SomeRw(s.procs[p].vmas, addr / PG_SIZE)
    ensures Ends(s, [Write(p, addr, w, g)], SegFault, Stored)
  {
    hide Inv, Ends, Real;
    assert p in View(s);
    FirstWriteVerdict(s, p, addr, w, g);
    EndsNow(s, Write(p, addr, w, g));
  }

  /** The last VMA that touches a page is read-only although another may write it:
      a forked child may not. */
  lemma ForkedWrite(s: State, p: nat, c: nat, addr: nat, w: Word, g: nat)
    requires Inv(s) && p in s.procs && c !in s.procs && addr / PG_SIZE !in s.procs[p].pt && IsFree(s, g)
    requires SearchVma(s.procs[p].vmas, addr).Some?
    requires SomeRw(s.procs[p].vmas, addr / PG_SIZE) && !LastRw(s.procs[p].vmas, addr / PG_SIZE)
    ensures Ends(s, [Read(p, addr, g), ForkTo(p, c), Write(c, addr, w, g)], SegFault, Stored)
  {
    hide Inv, View, Fork, SomeRw, LastRw, Ends;
    FirstRead(s, p, addr, g);
    var t := Real(s, Read(p, addr, g)).0;
    ForkView(t, p, c);
    ForkedWriteVerdict(t, p, c, addr, w, g);
    ForkedKeepsPage(t, p, c, addr / PG_SIZE);
    EndsNow(Fork(t, p, c), Write(c, addr, w, g));
    EndsAfter(t, ForkTo(p, c), [Write(c, addr, w, g)], SegFault, Stored);
    assert [ForkTo(p, c)] + [Write(c, addr, w, g)] == [ForkTo(p, c), Write(c, addr, w, g)];
    EndsAfter(s, Read(p, addr, g), [ForkTo(p, c), Write(c, addr, w, g)], SegFault, Stored);
    assert [Read(p, addr, g)] + [ForkTo(p, c), Write(c, addr, w, g)]
        == [Read(p, addr, g), ForkTo(p, c), Write(c, addr, w, g)];
  }

  lemma FirstRead(s: State, p: nat, addr: nat, g: nat)
    requires Inv(s) && p in s.procs && addr / PG_SIZE !in s.procs[p].pt && IsFree(s, g)
    requires SearchVma(s.procs[p].vmas, addr).Some?
    ensures Enabled(s, Read(p, addr, g))
    ensures var t := Real(s, Read(p, addr, g)).0;
            && Inv(t) && View(t) == Ideal(View(s), Read(p, addr, g)).0
            && t.procs.Keys == s.procs.Keys && p in View(t) && t.procs[p].vmas == s.procs[p].vmas
               && addr / PG_SIZE in t.procs[p].pt
  {
    InMem(s, p);
    DemandView(s, p, addr, g);
  }

  lemma ForkedKeepsPage(s: State, p: nat, c: nat, v: nat)
    requires Inv(s) && p in s.procs && c !in s.procs && v in s.procs[p].pt && Inv(Fork(s, p, c))
    ensures c in View(Fork(s, p, c)) && v in View(Fork(s, p, c))[c].pages
  {
    ForkedEntry(s, p, c, v);
  }

  /** A page where brk can put the heap is read-only: after that brk the first VMA
      of its addresses still is, and the page may be written. */
  lemma HeapWrite(s: State, p: nat, v: nat, addr: nat, w: Word, g: nat)
    requires Inv(s) && p in s.procs && s.procs[p].pt == map[] && IsFree(s, g)
    requires SearchVma(s.procs[p].vmas, addr).Some? && addr / PG_SIZE == v
    requires !SomeRw(s.procs[p].vmas, v) && HeapPage(s.procs[p].heap, v)
    ensures Ends(s, [SetBreak(p, BreakFor(s.procs[p].heap, v)), Write(p, addr, w, g)], SegFault, Stored)
  {
    hide Inv, Ends, View;
    var q := s.procs[p];
    var b := BreakFor(q.heap, v);
    var x := Vma(q.heap, b, true, Anonymous, 0, 0);
    BreakReaches(q.heap, v);
    BrkView(s, p, b);
    var t := Brk(s, p, b);
    var a := SearchVma(q.vmas, addr).value;
    SearchAppend(q.vmas, x, addr);
    SomeRwAppend(q.vmas, x, v);
    NotWritable(q.vmas, a, v);
    HiddenWrite(t, p, addr, w, g);
    EndsAfter(s, SetBreak(p, b), [Write(p, addr, w, g)], SegFault, Stored);
    assert [SetBreak(p, b)] + [Write(p, addr, w, g)] == [SetBreak(p, b), Write(p, addr, w, g)];
  }

  /** The smallest break above the heap start that reaches page v. */
  function BreakFor(heap: nat, v: nat): nat {
    (if heap < v * PG_SIZE then v * PG_SIZE else heap) + 1
  }

  lemma BreakReaches(heap: nat, v: nat)
    requires HeapPage(heap, v)
    ensures heap < BreakFor(heap, v) < HEAP_LIMIT
    ensures Vma(heap, BreakFor(heap, v), true, Anonymous, 0, 0).Touches(v)
  {
    var n := HEAP_LIMIT / PG_SIZE;
    assert HEAP_LIMIT == n * PG_SIZE;
    assert v < n;
  }

  lemma NotWritable(vmas: seq<Vma>, a: Vma, v: nat)
    requires a in vmas && a.Touches(v) && !SomeRw(vmas, v)
    ensures !a.rw
  {
    var k :| 0 <= k < |vmas| && vmas[k] == a;
    assert !(vmas[k].Touches(v) && vmas[k].rw);
  }

  // ---------------------------------------------------------------- the condition is exact

  /** Every possible run that begins with this exec, and gives later ones lists
      that are consistent, looks like private memory. */
  ghost predicate AlwaysRefines(s: State, p: nat, vmas: seq<Vma>, heap: nat)
    requires Inv(s)
  {
    forall ops {:trigger Agrees(s, p, vmas, heap, ops)} :: (forall op :: op in ops ==> LaidOut(op)) ==>
      Agrees(s, p, vmas, heap, ops)
  }

  ghost predicate Agrees(s: State, p: nat, vmas: seq<Vma>, heap: nat, ops: seq<Op>)
    requires Inv(s)
  {
    var run := [Replace(p, vmas, heap)] + ops;
    Possible(s, run) ==>
      && RealRun(s, run).1 == IdealRun(View(s), run).1
      && View(RealRun(s, run).0) == IdealRun(View(s), run).0
  }

  /** A list that is not consistent has a run on which the machines part. */
  lemma InconsistentParts(s: State, p: nat, c: nat, vmas: seq<Vma>, heap: nat, g: nat) returns (ops: seq<Op>)
    requires Inv(s) && IsFree(s, g) && c !in s.procs && c != p && !Consistent(vmas, heap)
    requires forall a :: a in vmas ==> VmaOk(a)
    ensures (forall op :: op in ops ==> LaidOut(op)) && Ends(s, [Replace(p, vmas, heap)] + ops, SegFault, Stored)
  {
    hide Inv, Ends, View, Consistent;
    ExecView(s, p, vmas, heap);
    var t := Exec(s, p, vmas, heap);
    var addr, kind := WhereInconsistent(vmas, heap);
    match kind {
      case 0 =>
        ops := [Write(p, addr, 0, g)];
        HiddenWrite(t, p, addr, 0, g);
      case 1 =>
        ops := [Read(p, addr, g), ForkTo(p, c), Write(c, addr, 0, g)];
        ForkedWrite(t, p, c, addr, 0, g);
      case _ =>
        ops := [SetBreak(p, BreakFor(heap, addr / PG_SIZE)), Write(p, addr, 0, g)];
        HeapWrite(t, p, addr / PG_SIZE, addr, 0, g);
    }
    EndsAfter(s, Replace(p, vmas, heap), ops, SegFault, Stored);
  }

  /** An address that shows which of the three conditions fails. */
  lemma WhereInconsistent(vmas: seq<Vma>, heap: nat) returns (addr: nat, kind: nat)
    requires !Consistent(vmas, heap)
    ensures SearchVma(vmas, addr).Some? && kind <= 2
    ensures kind == 0 ==> !SearchVma(vmas, addr).value.rw && SomeRw(vmas, addr / PG_SIZE)
    ensures kind == 1 ==> SomeRw(vmas, addr / PG_SIZE) && !LastRw(vmas, addr / PG_SIZE)
    ensures kind == 2 ==> !SomeRw(vmas, addr / PG_SIZE) && HeapPage(heap, addr / PG_SIZE)
  {
    if x: nat :| SearchVma(vmas, x).Some? && !(SearchVma(vmas, x).value.rw <==> SomeRw(vmas, x / PG_SIZE)) {
      FoundTouches(vmas, x);
      addr, kind := x, 0;
    } else if v: nat :| Mappable(vmas, v) && !(LastRw(vmas, v) <==> SomeRw(vmas, v)) {
      if LastRw(vmas, v) { LastRwIsSomeRw(vmas, v); }
      addr :| SearchVma(vmas, addr).Some? && addr / PG_SIZE == v;
      kind := 1;
    } else {
      var v: nat :| Mappable(vmas, v) && HeapPage(heap, v) && !SomeRw(vmas, v);
      addr :| SearchVma(vmas, addr).Some? && addr / PG_SIZE == v;
      kind := 2;
    }
  }

  /** The condition is exact: from any state with a free frame, runs that begin with
      an exec look like private memory if and only if its VMA list is consistent. */
  lemma RefinesExactly(s: State, p: nat, c: nat, vmas: seq<Vma>, heap: nat, g: nat)
    requires Inv(s) && Faithful(s) && IsFree(s, g) && c !in s.procs && c != p
    requires forall a :: a in vmas ==> VmaOk(a)
    ensures Consistent(vmas, heap) <==> AlwaysRefines(s, p, vmas, heap)
  {
    hide Inv, Faithful, View, Consistent;
    if Consistent(vmas, heap) {
      forall ops | forall op :: op in ops ==> LaidOut(op)
        ensures Agrees(s, p, vmas, heap, ops)
      {
        var run := [Replace(p, vmas, heap)] + ops;
        if Possible(s, run) { CowRefinesPrivateMemory(s, run); }
      }
    } else {
      var ops := InconsistentParts(s, p, c, vmas, heap, g);
      assert !Agrees(s, p, vmas, heap, ops);
    }
  }

  // ---------------------------------------------------------------- one such list

  /** A data VMA followed by a read-only VMA that ends in the data VMA's page. */
  function MixedVmas(): seq<Vma> {
    [Vma(0x60_0800, 0x60_1000, true, Anonymous, 0, 0),
     Vma(0x60_0000, 0x60_0800, false, File((i: int) => 0), 0, 0x800)]
  }

  function MixedRun(p: nat, c: nat, w: Word, g: nat): seq<Op> {
    [Replace(p, MixedVmas(), 0x60_1000)] + [Read(p, 0x60_0800, g), ForkTo(p, c), Write(c, 0x60_0800, w, g)]
  }

  /** From any state with a free frame: exec with that list, read the data, fork,
      write it in the child. The child is killed; private memory stores. */
  lemma MixedProtectionBreaksFork(s: State, p: nat, c: nat, w: Word, g: nat)
    requires Inv(s) && IsFree(s, g) && c !in s.procs && c != p
    ensures Ends(s, MixedRun(p, c, w, g), SegFault, Stored)
  {
    hide Inv, Ends, View;
    var vmas := MixedVmas();
    assert vmas[0].Touches(0x600) && vmas[0].rw && vmas[1].Touches(0x600) && !vmas[1].rw;
    assert !LastRw(vmas, 0x600) && SomeRw(vmas, 0x600) && SearchVma(vmas, 0x60_0800) == Some(vmas[0]);
    assert forall a :: a in vmas ==> VmaOk(a);
    ExecView(s, p, vmas, 0x60_1000);
    ForkedWrite(Exec(s, p, vmas, 0x60_1000), p, c, 0x60_0800, w, g);
    EndsAfter(s, Replace(p, vmas, 0x60_1000), [Read(p, 0x60_0800, g), ForkTo(p, c), Write(c, 0x60_0800, w, g)],
      SegFault, Stored);
  }

  // ---------------------------------------------------------------- a count that is too high

  lemma RunAfter(s: State, op: Op, ops: seq<Op>)
    requires Inv(s) && Enabled(s, op) && Inv(Real(s, op).0) && Possible(Real(s, op).0, ops)
    ensures Possible(s, [op] + ops) && RealRun(s, [op] + ops).0 == RealRun(Real(s, op).0, ops).0
  {
    hide Inv, Enabled, Real;
    assert ([op] + ops)[1..] == ops && ([op] + ops)[0] == op;
  }

  lemma RunOne(s: State, op: Op)
    requires Inv(s) && Enabled(s, op)
    ensures Possible(s, [op]) && RealRun(s, [op]).0 == Real(s, op).0
  {
    hide Inv, Enabled, Real;
    StepKeepsInv(s, op);
    var t := Real(s, op).0;
    assert [op][1..] == [] && Possible(t, []);
    assert RealRun(t, []) == (t, []);
  }

  const HEAP: nat := 0x60_1000

  /** exec, brk twice to the same page, a first access to it, and fork. */
  function TwoBreaks(p: nat, c: nat, g: nat): seq<Op> {
    [Replace(p, [], HEAP)]
    + ([SetBreak(p, HEAP + 1)] + ([SetBreak(p, HEAP + 2)] + ([Read(p, HEAP, g)] + [ForkTo(p, c)])))
  }

  /** The process after both calls of brk. */
  function Twice(): seq<Vma> {
    [Vma(HEAP, HEAP + 1, true, Anonymous, 0, 0), Vma(HEAP, HEAP + 2, true, Anonymous, 0, 0)]
  }

  /** From any state with a free frame: after that run the frame has two mappings
      and three references. */
  lemma OverCounted(s: State, p: nat, c: nat, g: nat)
    requires Inv(s) && IsFree(s, g) && c !in s.procs && c != p
    ensures Possible(s, TwoBreaks(p, c, g))
    ensures var t := RealRun(s, TwoBreaks(p, c, g)).0;
            && Inv(t) && g < |t.ref| && Mappers(t, g) == {(p, HEAP / PG_SIZE), (c, HEAP / PG_SIZE)} && t.ref[g] == 3
  {
    hide Inv, View, Fork, Mappers, Access;
    ExecView(s, p, [], HEAP);
    var s1 := Exec(s, p, [], HEAP);
    BrkView(s1, p, HEAP + 1);
    var s2 := Brk(s1, p, HEAP + 1);
    BrkView(s2, p, HEAP + 2);
    var s3 := Brk(s2, p, HEAP + 2);
    assert s3.procs[p].vmas == Twice();
    FirstHeapRead(s3, p, g);
    var s4 := Real(s3, Read(p, HEAP, g)).0;
    ForkView(s4, p, c);
    TwiceForked(s4, p, c, g);
    RunOne(s4, ForkTo(p, c));
    RunAfter(s3, Read(p, HEAP, g), [ForkTo(p, c)]);
    RunAfter(s2, SetBreak(p, HEAP + 2), [Read(p, HEAP, g)] + [ForkTo(p, c)]);
    RunAfter(s1, SetBreak(p, HEAP + 1), [SetBreak(p, HEAP + 2)] + ([Read(p, HEAP, g)] + [ForkTo(p, c)]));
    RunAfter(s, Replace(p, [], HEAP),
      [SetBreak(p, HEAP + 1)] + ([SetBreak(p, HEAP + 2)] + ([Read(p, HEAP, g)] + [ForkTo(p, c)])));
  }

  lemma FirstHeapRead(s: State, p: nat, g: nat)
    requires Inv(s) && p in s.procs && s.procs[p].vmas == Twice() && s.procs[p].pt == map[] && IsFree(s, g)
    ensures Enabled(s, Read(p, HEAP, g))
    ensures var t := Real(s, Read(p, HEAP, g)).0;
            && Inv(t) && t.procs.Keys == s.procs.Keys && t.procs[p].vmas == Twice()
            && t.procs[p].pt == map[HEAP / PG_SIZE := Pte(g, true, false)]
            && g < |t.ref| && t.ref[g] == 1 && Mappers(t, g) == {(p, HEAP / PG_SIZE)}
  {
    assert SearchVma(Twice(), HEAP) == Some(Twice()[0]);
    FirstRead(s, p, HEAP, g);
    InMem(s, p);
    FreeMeansUnused(s, g);
    var t := Real(s, Read(p, HEAP, g)).0;
    assert t == Demand(s, p, HEAP / PG_SIZE, Twice()[0], g);
    RemapMappers(s, t, p, HEAP / PG_SIZE, Pte(g, true, false), g);
  }

  lemma TwiceForked(s: State, p: nat, c: nat, g: nat)
    requires Inv(s) && p in s.procs && c !in s.procs && s.procs[p].vmas == Twice()
    requires s.procs[p].pt == map[HEAP / PG_SIZE := Pte(g, true, false)]
    requires g < |s.ref| && s.ref[g] == 1 && Mappers(s, g) == {(p, HEAP / PG_SIZE)}
    ensures var t := Fork(s, p, c);
            g < |t.ref| && t.ref[g] == 3 && Mappers(t, g) == {(p, HEAP / PG_SIZE), (c, HEAP / PG_SIZE)}
  {
    hide Placed, Exclusive, Counted, VmasOk, Shape;
    var q, v := s.procs[p], HEAP / PG_SIZE;
    assert q.vmas[0].Touches(v) && q.vmas[1].Touches(v);
    assert Copies(q, g) == {(0, v), (1, v)};
    ForkMappers(s, p, c, g);
    assert SomeTouch(q.vmas, v);
    assert NewMappers(q, c, g) == {(c, v)};
  }
}
