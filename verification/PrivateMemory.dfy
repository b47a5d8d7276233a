/** The meaning of the copy-on-write machine to user programs: every process
    owns its pages, a fork copies them outright and a store changes the writer's
    page only. The machine with shared frames, lazy mapping and reference counts
    answers every read, write and fault exactly as this simple one does. */
module PrivateMemory {
  import opened Basics
  import opened CowMachine
  import opened CowInvariant

  datatype Space = Space(vmas: seq<Vma>, heap: nat, pages: map<nat, Page>)

  type Memory = map<nat, Space>

  datatype Output = Value(w: Word) | Stored | SegFault | Returned(n: nat) | Silent

  /** One thing that happens. `g` is the frame get_free_page would hand out,
      used only when the access needs one. */
  datatype Op =
    | Read(p: nat, addr: nat, g: nat)
    | Write(p: nat, addr: nat, w: Word, g: nat)
    | ForkTo(p: nat, c: nat)
    | SetBreak(p: nat, newBreak: nat)
    | Replace(p: nat, vmas: seq<Vma>, heap: nat)
    | Leave(p: nat)
    | KernelTake(frames: set<nat>)
    | KernelGive(f: nat)

  // ---------------------------------------------------------------- the simple machine

  ghost predicate MayWrite(sp: Space, v: nat) {
    SomeRw(sp.vmas, v)
  }

  /** Memory after the page of `addr` has been brought in, if it can be. */
  function TouchPage(m: Memory, p: nat, addr: nat): Memory
    requires p in m
  {
    var sp := m[p];
    var v := addr / PG_SIZE;
    if v in sp.pages then m
    else
      match SearchVma(sp.vmas, addr)
      case Some(a) => m[p := sp.(pages := sp.pages[v := Fill(a, v)])]
      case None => m
  }

  ghost predicate Allowed(m: Memory, p: nat, addr: nat, write: bool)
    requires p in m
  {
    && (addr / PG_SIZE in m[p].pages || SearchVma(m[p].vmas, addr).Some?)
    && (write ==> MayWrite(m[p], addr / PG_SIZE))
  }

  ghost function Ideal(m: Memory, op: Op): (Memory, Output) {
    match op
    case Read(p, addr, _) =>
      if p !in m then (m, Silent)
      else if !Allowed(m, p, addr, false) then (m - {p}, SegFault)
      else
        var n := TouchPage(m, p, addr);
        (n, Value(n[p].pages[addr / PG_SIZE][addr % PG_SIZE / 8]))
    case Write(p, addr, w, _) =>
      if p !in m then (m, Silent)
      else if !Allowed(m, p, addr, true) then (m - {p}, SegFault)
      else
        var n := TouchPage(m, p, addr);
        var v := addr / PG_SIZE;
        (n[p := n[p].(pages := n[p].pages[v := n[p].pages[v][addr % PG_SIZE / 8 := w]])], Stored)
    case ForkTo(p, c) => if p in m then (m[c := m[p]], Returned(c)) else (m, Silent)
    case SetBreak(p, b) =>
      if p !in m then (m, Silent)
      else if b == 0 then (m, Returned(m[p].heap))
      else (m[p := m[p].(vmas := m[p].vmas + [Vma(m[p].heap, b, true, Anonymous, 0, 0)])], Returned(b))
    case Replace(p, vmas, heap) => (m[p := Space(vmas, heap, map[])], Silent)
    case Leave(p) => (m - {p}, Silent)
    case KernelTake(_) => (m, Silent)
    case KernelGive(_) => (m, Silent)
  }

  /** Two addresses lie in one word when page and index within the page agree. */
  lemma SameWord(a: nat, b: nat)
    ensures a / 8 == b / 8 <==> a / PG_SIZE == b / PG_SIZE && a % PG_SIZE / 8 == b % PG_SIZE / 8
  {
    WordIndex(a);
    WordIndex(b);
  }

  lemma WordIndex(a: nat)
    ensures a / 8 == a / PG_SIZE * 512 + a % PG_SIZE / 8
  {
    assert a == 8 * (a / PG_SIZE * 512) + a % PG_SIZE;
  }

  /** What private memory is: a store is read back from its word, and every other
      read, of any process, gives what it would give had the word only been read. */
  lemma ReadAfterWrite(m: Memory, p: nat, a: nat, w: Word, q: nat, b: nat)
    requires p in m && Allowed(m, p, a, true)
    ensures var n := Ideal(m, Write(p, a, w, 0)).0;
            Ideal(n, Read(q, b, 0)).1 ==
              if q == p && a / 8 == b / 8 then Value(w) else Ideal(Ideal(m, Read(p, a, 0)).0, Read(q, b, 0)).1
  {
    SameWord(a, b);
  }

  /** Reading a page in changes no read of another process or page. Within the
      page it changes none exactly when the page was there already, or the VMAs of
      both addresses agree on the word; an address in no VMA becomes readable. */
  lemma ReadAfterRead(m: Memory, p: nat, a: nat, q: nat, b: nat)
    requires p in m && Allowed(m, p, a, false)
    ensures Ideal(Ideal(m, Read(p, a, 0)).0, Read(q, b, 0)).1 == Ideal(m, Read(q, b, 0)).1 <==>
            || q != p || a / PG_SIZE != b / PG_SIZE || a / PG_SIZE in m[p].pages
            || (var x, y := SearchVma(m[p].vmas, a), SearchVma(m[p].vmas, b);
                var i := b % PG_SIZE / 8;
                y.Some? && Fill(x.value, a / PG_SIZE)[i] == Fill(y.value, a / PG_SIZE)[i])
  {
    hide Fill;
  }

  /** A forked child reads what its parent reads, and so does everybody else; a
      process that is refused an access takes nobody's memory along. */
  lemma ReadAfterFork(m: Memory, p: nat, c: nat, q: nat, b: nat)
    requires p in m && c !in m
    ensures Ideal(Ideal(m, ForkTo(p, c)).0, Read(q, b, 0)).1 == Ideal(m, Read(if q == c then p else q, b, 0)).1
    ensures q != p ==> Ideal(Ideal(m, Leave(p)).0, Read(q, b, 0)).1 == Ideal(m, Read(q, b, 0)).1
    ensures forall a: nat, w: Word :: q != p && Ideal(m, Write(p, a, w, 0)).1 == SegFault ==>
              Ideal(Ideal(m, Write(p, a, w, 0)).0, Read(q, b, 0)).1 == Ideal(m, Read(q, b, 0)).1
  {
  }

  // ---------------------------------------------------------------- the real machine

  /** An access as the processor and page_fault_handler carry it out: try, take
      the fault, retry. The flag says whether the access went through. */
  function Access(s: State, p: nat, addr: nat, write: bool, g: nat): (r: (State, bool))
    requires p in s.procs && g < |s.ref|
    requires forall v :: v in s.procs[p].pt ==> s.procs[p].pt[v].frame < |s.ref| && s.procs[p].pt[v].frame in s.mem
    ensures p in r.0.procs
    ensures r.1 ==> addr / PG_SIZE in r.0.procs[p].pt && r.0.procs[p].pt[addr / PG_SIZE].frame in r.0.mem
    ensures r.1 ==> Mmu(r.0, p, addr / PG_SIZE, write).Granted?
  {
    var v := addr / PG_SIZE;
    if Mmu(s, p, v, write).Granted? then (s, true)
    else
      match Handle(s, p, addr, write)
      case MapPage(a) =>
        var t := Demand(s, p, v, a, g);
        // a write may fault again; the fresh entry is not copy-on-write, so that fault kills
        (t, Mmu(t, p, v, write).Granted?)
      case SplitPage => (Split(s, p, v, g), true)
      case ClearCow => (Clear(s, p, v), true)
      case Kill => (s, false)
  }

  predicate NeedsFrame(s: State, p: nat, addr: nat, write: bool)
    requires p in s.procs
    requires forall v :: v in s.procs[p].pt ==> s.procs[p].pt[v].frame < |s.ref|
  {
    && !Mmu(s, p, addr / PG_SIZE, write).Granted?
    && (Handle(s, p, addr, write).MapPage? || Handle(s, p, addr, write).SplitPage?)
  }

  /** The step is possible: the kernel does not panic and the argument is one
      the callers in the kernel pass. */
  ghost predicate Enabled(s: State, op: Op)
    requires Inv(s)
  {
    match op
    case Read(p, addr, g) => p in s.procs && g < FRAMES && (InMem(s, p); NeedsFrame(s, p, addr, false) ==> IsFree(s, g))
    case Write(p, addr, _, g) => p in s.procs && g < FRAMES
      && (InMem(s, p); NeedsFrame(s, p, addr, true) ==> IsFree(s, g))
    case ForkTo(p, c) => p in s.procs && c !in s.procs
    case SetBreak(p, b) => p in s.procs && (b == 0 || s.procs[p].heap < b < HEAP_LIMIT)
    case Replace(p, vmas, heap) => forall a :: a in vmas ==> VmaOk(a)
    case Leave(p) => p in s.procs
    case KernelTake(fs) => forall f :: f in fs ==> IsFree(s, f)
    case KernelGive(f) => f in s.kernel && s.ref[f] == 1
  }

  lemma InMem(s: State, p: nat)
    requires Inv(s) && p in s.procs
    ensures forall v :: v in s.procs[p].pt ==> s.procs[p].pt[v].frame < |s.ref| && s.procs[p].pt[v].frame in s.mem
  {
    forall v | v in s.procs[p].pt ensures s.procs[p].pt[v].frame in s.mem {
      assert Maps(s, p, v);
    }
  }

  ghost function Real(s: State, op: Op): (State, Output)
    requires Inv(s) && Enabled(s, op)
  {
    match op
    case Read(p, addr, g) =>
      InMem(s, p);
      var (t, ok) := Access(s, p, addr, false, g);
      if ok then
        (t, Value(t.mem[t.procs[p].pt[addr / PG_SIZE].frame][addr % PG_SIZE / 8]))
      else (Exit(t, p), SegFault)
    case Write(p, addr, w, g) =>
      InMem(s, p);
      var (t, ok) := Access(s, p, addr, true, g);
      if ok then
        (Store(t, p, addr / PG_SIZE, addr % PG_SIZE / 8, w), Stored)
      else (Exit(t, p), SegFault)
    case ForkTo(p, c) => (Fork(s, p, c), Returned(c))
    case SetBreak(p, b) => if b == 0 then (s, Returned(s.procs[p].heap)) else (Brk(s, p, b), Returned(b))
    case Replace(p, vmas, heap) => (Exec(s, p, vmas, heap), Silent)
    case Leave(p) => (Exit(s, p), Silent)
    case KernelTake(fs) => (Grow(s, fs), Silent)
    case KernelGive(f) => (Release(s, f), Silent)
  }

  // ---------------------------------------------------------------- abstraction

  ghost function Contents(s: State, p: nat): (r: map<nat, Page>)
    requires Inv(s) && p in s.procs
  {
    InMem(s, p);
    map v | v in s.procs[p].pt :: s.mem[s.procs[p].pt[v].frame]
  }

  ghost function SpaceOf(s: State, p: nat): Space
    requires Inv(s) && p in s.procs
  {
    Space(s.procs[p].vmas, s.procs[p].heap, Contents(s, p))
  }

  /** What each process sees: the contents of the frames its entries name. */
  ghost function View(s: State): Memory
    requires Inv(s)
  {
    map p | p in s.procs :: SpaceOf(s, p)
  }

  lemma ViewIs(s: State, m: Memory)
    requires Inv(s) && s.procs.Keys == m.Keys
    requires forall p :: p in s.procs ==> SpaceOf(s, p) == m[p]
    ensures View(s) == m
  {
  }

  /** Some address of the page lies in a VMA, so a fault can bring it in. */
  ghost predicate Mappable(vmas: seq<Vma>, v: nat) {
    exists addr: nat :: SearchVma(vmas, addr).Some? && addr / PG_SIZE == v
  }

  /** The VMA list gives each page one protection where the kernel looks: the
      first VMA holding an address (demand mapping), the last VMA touching a page
      (fork's child) and any VMA touching it (fork's parent) agree; and where brk
      can put a heap VMA, no page that can be brought in is read-only. */
  ghost predicate Consistent(vmas: seq<Vma>, heap: nat) {
    && (forall addr: nat {:trigger SearchVma(vmas, addr)} :: SearchVma(vmas, addr).Some? ==>
          (SearchVma(vmas, addr).value.rw <==> SomeRw(vmas, addr / PG_SIZE)))
    && (forall v {:trigger Mappable(vmas, v)} :: Mappable(vmas, v) ==> (LastRw(vmas, v) <==> SomeRw(vmas, v)))
    && (forall v {:trigger Mappable(vmas, v)} :: Mappable(vmas, v) && HeapPage(heap, v) ==> SomeRw(vmas, v))
  }

  /** Some successful brk makes the heap reach page v. */
  predicate HeapPage(heap: nat, v: nat) {
    heap + 1 < HEAP_LIMIT && heap / PG_SIZE <= v && v * PG_SIZE < HEAP_LIMIT
  }

  /** exec is given such a list. */
  ghost predicate LaidOut(op: Op) {
    op.Replace? ==> Consistent(op.vmas, op.heap)
  }

  /** Entries are of pages that a fault can bring in, and those of pages that may
      be written are writable or copy-on-write. */
  ghost predicate Faithful(s: State) {
    && (forall p :: p in s.procs ==> Consistent(s.procs[p].vmas, s.procs[p].heap))
    && (forall p, v {:trigger Maps(s, p, v)} :: Maps(s, p, v) ==> Mappable(s.procs[p].vmas, v))
    && (forall p, v {:trigger Maps(s, p, v)} :: Maps(s, p, v) && SomeRw(s.procs[p].vmas, v) ==>
          At(s, p, v).writable || At(s, p, v).cow)
  }

  // ---------------------------------------------------------------- single steps

  lemma SameContents(s: State, t: State, p: nat)
    requires Inv(s) && Inv(t) && p in s.procs && p in t.procs && t.procs[p].pt.Keys == s.procs[p].pt.Keys
    requires forall v :: v in s.procs[p].pt && s.procs[p].pt[v].frame in s.mem ==>
               t.procs[p].pt[v].frame in t.mem && t.mem[t.procs[p].pt[v].frame] == s.mem[s.procs[p].pt[v].frame]
    ensures Contents(t, p) == Contents(s, p)
  {
    InMem(s, p);
  }

  lemma ViewUnchanged(s: State, t: State)
    requires Inv(s) && Inv(t) && t.procs == s.procs
    requires forall f :: f in s.mem ==> f in t.mem && t.mem[f] == s.mem[f]
    ensures View(t) == View(s)
  {
    forall p | p in s.procs ensures SpaceOf(t, p) == SpaceOf(s, p) { SameContents(s, t, p); }
    ViewIs(t, View(s));
  }

  /** No entry names a free frame, so filling it changes no contents. */
  lemma FreeFrameUnseen(s: State, t: State, g: nat, q: nat)
    requires Inv(s) && Inv(t) && IsFree(s, g) && q in s.procs && q in t.procs && t.procs[q].pt == s.procs[q].pt
    requires forall f :: f in s.mem && f != g ==> f in t.mem && t.mem[f] == s.mem[f]
    ensures Contents(t, q) == Contents(s, q)
  {
    FreeMeansUnused(s, g);
    forall v | v in s.procs[q].pt ensures s.procs[q].pt[v].frame != g {
      assert Maps(s, q, v);
    }
    SameContents(s, t, q);
  }

  lemma DemandView(s: State, p: nat, addr: nat, g: nat)
    requires Inv(s) && p in s.procs && addr / PG_SIZE !in s.procs[p].pt && IsFree(s, g)
    requires SearchVma(s.procs[p].vmas, addr).Some?
    ensures var a := SearchVma(s.procs[p].vmas, addr).value;
            Inv(Demand(s, p, addr / PG_SIZE, a, g)) &&
            View(Demand(s, p, addr / PG_SIZE, a, g)) == TouchPage(View(s), p, addr)
  {
    var a := SearchVma(s.procs[p].vmas, addr).value;
    var v := addr / PG_SIZE;
    DemandKeepsInv(s, p, v, a, g);
    var t := Demand(s, p, v, a, g);
    DemandContents(s, p, v, a, g);
    forall q | q in s.procs && q != p ensures SpaceOf(t, q) == SpaceOf(s, q) { FreeFrameUnseen(s, t, g, q); }
    ViewIs(t, TouchPage(View(s), p, addr));
  }

  lemma DemandContents(s: State, p: nat, v: nat, a: Vma, g: nat)
    requires Inv(s) && p in s.procs && v !in s.procs[p].pt && IsFree(s, g) && Inv(Demand(s, p, v, a, g))
    ensures Contents(Demand(s, p, v, a, g), p) == Contents(s, p)[v := Fill(a, v)]
  {
    var t := Demand(s, p, v, a, g);
    FreeMeansUnused(s, g);
    forall u | u in s.procs[p].pt ensures s.procs[p].pt[u].frame != g {
      assert Maps(s, p, u);
    }
    InMem(s, p);
    assert Contents(t, p).Keys == s.procs[p].pt.Keys + {v};
  }

  /** Un-sharing a frame is invisible: the copy has the same contents. */
  lemma SplitView(s: State, p: nat, v: nat, g: nat)
    requires Inv(s) && Maps(s, p, v) && At(s, p, v).cow && s.ref[At(s, p, v).frame] > 1 && IsFree(s, g)
    ensures At(s, p, v).frame in s.mem && Inv(Split(s, p, v, g)) && View(Split(s, p, v, g)) == View(s)
  {
    SplitKeepsInv(s, p, v, g);
    FreeMeansUnused(s, g);
    var t := Split(s, p, v, g);
    forall q | q in s.procs ensures SpaceOf(t, q) == SpaceOf(s, q) {
      if q == p {
        forall u | u in s.procs[p].pt ensures s.procs[p].pt[u].frame != g { assert Maps(s, p, u); }
        SameContents(s, t, p);
      } else {
        FreeFrameUnseen(s, t, g, q);
      }
    }
    ViewIs(t, View(s));
  }

  lemma ClearView(s: State, p: nat, v: nat)
    requires Inv(s) && Maps(s, p, v) && At(s, p, v).cow && s.ref[At(s, p, v).frame] <= 1
    ensures Inv(Clear(s, p, v)) && View(Clear(s, p, v)) == View(s)
  {
    ClearKeepsInv(s, p, v);
    var t := Clear(s, p, v);
    forall q | q in s.procs ensures SpaceOf(t, q) == SpaceOf(s, q) { SameContents(s, t, q); }
    ViewIs(t, View(s));
  }

  lemma StoreContents(s: State, p: nat, v: nat, i: nat, w: Word, q: nat)
    requires Inv(s) && Maps(s, p, v) && At(s, p, v).writable && i < 512 && q in s.procs
    requires At(s, p, v).frame in s.mem && Inv(Store(s, p, v, i, w))
    ensures v in Contents(s, p)
    ensures Contents(Store(s, p, v, i, w), q) ==
            if q == p then Contents(s, p)[v := Contents(s, p)[v][i := w]] else Contents(s, q)
  {
    var f := At(s, p, v).frame;
    forall u | u in s.procs[q].pt && s.procs[q].pt[u].frame == f ensures q == p && u == v {
      assert Maps(s, q, u) && Maps(s, p, v);
    }
    InMem(s, q);
  }

  /** A store through a writable entry changes one word of one process. */
  lemma StoreView(s: State, p: nat, v: nat, i: nat, w: Word)
    requires Inv(s) && Maps(s, p, v) && At(s, p, v).writable && i < 512
    ensures v in View(s)[p].pages && At(s, p, v).frame in s.mem && Inv(Store(s, p, v, i, w))
    ensures View(Store(s, p, v, i, w)) ==
            View(s)[p := View(s)[p].(pages := View(s)[p].pages[v := View(s)[p].pages[v][i := w]])]
  {
    StoreKeepsInv(s, p, v, i, w);
    var t := Store(s, p, v, i, w);
    StoreContents(s, p, v, i, w, p);
    var m := View(s)[p := View(s)[p].(pages := View(s)[p].pages[v := View(s)[p].pages[v][i := w]])];
    forall q | q in s.procs ensures SpaceOf(t, q) == m[q] { StoreContents(s, p, v, i, w, q); }
    ViewIs(t, m);
  }

  lemma ForkContents(s: State, p: nat, c: nat, q: nat)
    requires Inv(s) && p in s.procs && c !in s.procs && Inv(Fork(s, p, c)) && (q == c || q in s.procs)
    ensures Contents(Fork(s, p, c), q) == Contents(s, if q == c then p else q)
  {
    var t := Fork(s, p, c);
    var r := s.procs[p];
    if q == c {
      forall v | v in r.pt ensures v in t.procs[c].pt && t.procs[c].pt[v].frame == r.pt[v].frame {
        assert Maps(s, p, v);
      }
    } else if q == p {
      assert forall v :: v in t.procs[p].pt <==> v in r.pt;
    }
  }

  /** Sharing frames copy-on-write is an outright copy to the child. */
  lemma ForkView(s: State, p: nat, c: nat)
    requires Inv(s) && p in s.procs && c !in s.procs
    ensures Inv(Fork(s, p, c)) && View(Fork(s, p, c)) == View(s)[c := View(s)[p]]
  {
    ForkKeepsInv(s, p, c);
    var t := Fork(s, p, c);
    var m := View(s)[c := View(s)[p]];
    forall q | q in t.procs ensures SpaceOf(t, q) == m[q] { ForkContents(s, p, c, q); }
    ViewIs(t, m);
  }

  // ---------------------------------------------------------------- accesses

  lemma KeepFaithful(s: State, t: State, p: nat, v: nat, e: Pte)
    requires Faithful(s) && Remapped(s, t, p, v, e) && Mappable(s.procs[p].vmas, v)
    requires SomeRw(s.procs[p].vmas, v) ==> e.writable || e.cow
    ensures Faithful(t)
  {
    forall q, u | Maps(t, q, u)
      ensures Mappable(t.procs[q].vmas, u) && (SomeRw(t.procs[q].vmas, u) ==> At(t, q, u).writable || At(t, q, u).cow)
    {
      RemapEntry(s, t, p, v, e, q, u);
    }
  }

  /** A fault-and-retry access goes through exactly when the simple machine
      allows it, brings in the page it brings in, and never faults a third time. */
  lemma AccessRefines(s: State, p: nat, addr: nat, write: bool, g: nat)
    requires Inv(s) && Faithful(s) && p in s.procs && g < FRAMES
    requires (InMem(s, p); NeedsFrame(s, p, addr, write) ==> IsFree(s, g))
    ensures (InMem(s, p); var (t, ok) := Access(s, p, addr, write, g);
            && Inv(t) && Faithful(t)
            && (ok <==> Allowed(View(s), p, addr, write))
            && View(t) == TouchPage(View(s), p, addr)
            && (!ok ==> (InMem(t, p); Handle(t, p, addr, write) == Kill)))
  {
    hide Exclusive, Counted;
    InMem(s, p);
    var v := addr / PG_SIZE;
    var q := s.procs[p];
    if v in q.pt {
      assert Maps(s, p, v);
    }
    if !Mmu(s, p, v, write).Granted? {
      match Handle(s, p, addr, write)
      case MapPage(a) =>
        DemandView(s, p, addr, g);
        var t := Demand(s, p, v, a, g);
        KeepFaithful(s, t, p, v, t.procs[p].pt[v]);
        assert VmaOk(a);
        InMem(t, p);
      case SplitPage =>
        SplitView(s, p, v, g);
        KeepFaithful(s, Split(s, p, v, g), p, v, Pte(g, true, false));
      case ClearCow =>
        ClearView(s, p, v);
        KeepFaithful(s, Clear(s, p, v), p, v, Pte(q.pt[v].frame, true, false));
      case Kill =>
    }
  }

  // ---------------------------------------------------------------- the refinement

  lemma ForkFaithful(s: State, p: nat, c: nat)
    requires Inv(s) && Faithful(s) && p in s.procs && c !in s.procs
    ensures Faithful(Fork(s, p, c))
  {
    var t := Fork(s, p, c);
    forall r, v | Maps(t, r, v)
      ensures Mappable(t.procs[r].vmas, v) && (SomeRw(t.procs[r].vmas, v) ==> At(t, r, v).writable || At(t, r, v).cow)
    {
      assert Maps(s, if r == c then p else r, v);
      if r == c { assert Consistent(s.procs[p].vmas, s.procs[p].heap); }
    }
  }

  lemma {:induction false} SearchAppend(vmas: seq<Vma>, x: Vma, addr: nat)
    ensures SearchVma(vmas + [x], addr) ==
            if SearchVma(vmas, addr).Some? then SearchVma(vmas, addr)
            else if x.Contains(addr) then Some(x) else None
  {
    if vmas == [] {
      assert vmas + [x] == [x];
    } else {
      assert (vmas + [x])[1..] == vmas[1..] + [x];
      SearchAppend(vmas[1..], x, addr);
    }
  }

  lemma SomeRwAppend(vmas: seq<Vma>, x: Vma, v: nat)
    ensures SomeRw(vmas + [x], v) <==> SomeRw(vmas, v) || (x.Touches(v) && x.rw)
  {
    var w := vmas + [x];
    if SomeRw(vmas, v) {
      var k :| 0 <= k < |vmas| && vmas[k].Touches(v) && vmas[k].rw;
      assert w[k].Touches(v) && w[k].rw;
    }
    if x.Touches(v) && x.rw {
      assert w[|vmas|].Touches(v) && w[|vmas|].rw;
    }
  }

  /** Appending a VMA makes no page less mappable, and only its own more. */
  lemma MappableAppend(vmas: seq<Vma>, x: Vma, v: nat)
    ensures Mappable(vmas, v) ==> Mappable(vmas + [x], v)
    ensures Mappable(vmas + [x], v) && !x.Touches(v) ==> Mappable(vmas, v)
  {
    if Mappable(vmas, v) {
      var addr: nat :| SearchVma(vmas, addr).Some? && addr / PG_SIZE == v;
      SearchAppend(vmas, x, addr);
    }
    if Mappable(vmas + [x], v) && !x.Touches(v) {
      var addr: nat :| SearchVma(vmas + [x], addr).Some? && addr / PG_SIZE == v;
      SearchAppend(vmas, x, addr);
    }
  }

  lemma HeapTouches(heap: nat, newBreak: nat, v: nat)
    requires heap < newBreak < HEAP_LIMIT && Vma(heap, newBreak, true, Anonymous, 0, 0).Touches(v)
    ensures HeapPage(heap, v)
  {
    var q := (newBreak - 1) / PG_SIZE;
    assert v <= q && q * PG_SIZE <= newBreak - 1;
  }

  /** A heap area appended by brk keeps the VMA list consistent, however often
      and with whatever overlap it is appended. */
  lemma BrkConsistent(vmas: seq<Vma>, heap: nat, newBreak: nat)
    requires Consistent(vmas, heap) && heap < newBreak < HEAP_LIMIT
    ensures Consistent(vmas + [Vma(heap, newBreak, true, Anonymous, 0, 0)], heap)
  {
    var x := Vma(heap, newBreak, true, Anonymous, 0, 0);
    var w := vmas + [x];
    forall addr: nat | SearchVma(w, addr).Some?
      ensures SearchVma(w, addr).value.rw <==> SomeRw(w, addr / PG_SIZE)
    {
      SearchAppend(vmas, x, addr);
      SomeRwAppend(vmas, x, addr / PG_SIZE);
      if SearchVma(vmas, addr).Some? {
        assert Mappable(vmas, addr / PG_SIZE);
        if x.Touches(addr / PG_SIZE) { HeapTouches(heap, newBreak, addr / PG_SIZE); }
      } else {
        assert x.Touches(addr / PG_SIZE);
      }
    }
    forall v | Mappable(w, v)
      ensures (LastRw(w, v) <==> SomeRw(w, v)) && (HeapPage(heap, v) ==> SomeRw(w, v))
    {
      assert w[..|w| - 1] == vmas;
      SomeRwAppend(vmas, x, v);
      MappableAppend(vmas, x, v);
    }
  }

  lemma BrkFaithful(s: State, p: nat, newBreak: nat)
    requires Inv(s) && Faithful(s) && p in s.procs && s.procs[p].heap < newBreak < HEAP_LIMIT
    ensures Faithful(Brk(s, p, newBreak))
  {
    var t := Brk(s, p, newBreak);
    var q := s.procs[p];
    var x := Vma(q.heap, newBreak, true, Anonymous, 0, 0);
    BrkConsistent(q.vmas, q.heap, newBreak);
    forall r, v | Maps(t, r, v)
      ensures Mappable(t.procs[r].vmas, v) && (SomeRw(t.procs[r].vmas, v) ==> At(t, r, v).writable || At(t, r, v).cow)
    {
      assert Maps(s, r, v);
      if r == p {
        SomeRwAppend(q.vmas, x, v);
        MappableAppend(q.vmas, x, v);
        if x.Touches(v) { HeapTouches(q.heap, newBreak, v); }
      }
    }
  }

  /** The outcome of a step is the simple machine's, and the invariants hold. */
  ghost predicate Refined(s: State, op: Op, r: (State, Output))
    requires Inv(s)
  {
    Inv(r.0) && Faithful(r.0) && View(r.0) == Ideal(View(s), op).0 && r.1 == Ideal(View(s), op).1
  }

  lemma ReadRefines(s: State, p: nat, addr: nat, g: nat)
    requires Inv(s) && Faithful(s) && Enabled(s, Read(p, addr, g))
    ensures Refined(s, Read(p, addr, g), Real(s, Read(p, addr, g)))
  {
    InMem(s, p);
    AccessRefines(s, p, addr, false, g);
    var (t, ok) := Access(s, p, addr, false, g);
    if !ok {
      assert addr / PG_SIZE !in View(s)[p].pages;
      ExitView(t, p);
    }
  }

  lemma WriteRefines(s: State, p: nat, addr: nat, w: Word, g: nat)
    requires Inv(s) && Faithful(s) && Enabled(s, Write(p, addr, w, g))
    ensures Refined(s, Write(p, addr, w, g), Real(s, Write(p, addr, w, g)))
  {
    hide SpaceOf, Faithful, Placed, Exclusive, Counted, VmasOk;
    InMem(s, p);
    AccessRefines(s, p, addr, true, g);
    var (t, ok) := Access(s, p, addr, true, g);
    var v := addr / PG_SIZE;
    if ok {
      assert Maps(t, p, v);
      StoreView(t, p, v, addr % PG_SIZE / 8, w);
      StoreFaithful(t, p, v, addr % PG_SIZE / 8, w);
    } else {
      ExitView(t, p);
      assert View(t) - {p} == View(s) - {p};
    }
  }

  lemma StoreFaithful(s: State, p: nat, v: nat, i: nat, w: Word)
    requires Faithful(s) && Maps(s, p, v) && i < 512 && At(s, p, v).frame in s.mem
    ensures Faithful(Store(s, p, v, i, w))
  {
    var t := Store(s, p, v, i, w);
    assert forall q, u :: Maps(t, q, u) ==> Maps(s, q, u) && At(t, q, u) == At(s, q, u);
  }

  lemma BrkView(s: State, p: nat, b: nat)
    requires Inv(s) && p in s.procs && s.procs[p].heap < b < HEAP_LIMIT
    ensures Inv(Brk(s, p, b)) && View(Brk(s, p, b)) == Ideal(View(s), SetBreak(p, b)).0
  {
    BrkKeepsInv(s, p, b);
    var t := Brk(s, p, b);
    var m := Ideal(View(s), SetBreak(p, b)).0;
    forall q | q in s.procs ensures SpaceOf(t, q) == m[q] { SameContents(s, t, q); }
    ViewIs(t, m);
  }

  lemma BrkRefines(s: State, p: nat, b: nat)
    requires Inv(s) && Faithful(s) && Enabled(s, SetBreak(p, b))
    ensures Refined(s, SetBreak(p, b), Real(s, SetBreak(p, b)))
  {
    if b != 0 {
      BrkView(s, p, b);
      BrkFaithful(s, p, b);
    }
  }

  lemma ExecView(s: State, p: nat, vmas: seq<Vma>, heap: nat)
    requires Inv(s) && Enabled(s, Replace(p, vmas, heap))
    ensures Inv(Exec(s, p, vmas, heap)) && View(Exec(s, p, vmas, heap)) == Ideal(View(s), Replace(p, vmas, heap)).0
  {
    ExecKeepsInv(s, p, vmas, heap);
    var t := Exec(s, p, vmas, heap);
    var m := View(s)[p := Space(vmas, heap, map[])];
    assert Contents(t, p) == map[];
    forall q | q in t.procs ensures SpaceOf(t, q) == m[q] {
      if q != p { SameContents(s, t, q); }
    }
    ViewIs(t, m);
  }

  lemma ExecRefines(s: State, p: nat, vmas: seq<Vma>, heap: nat)
    requires Inv(s) && Faithful(s) && Enabled(s, Replace(p, vmas, heap)) && Consistent(vmas, heap)
    ensures Refined(s, Replace(p, vmas, heap), Real(s, Replace(p, vmas, heap)))
  {
    ExecView(s, p, vmas, heap);
    var t := Exec(s, p, vmas, heap);
    forall q, v | Maps(t, q, v) ensures q != p && Maps(s, q, v) {}
  }

  lemma ExitView(s: State, p: nat)
    requires Inv(s) && Faithful(s)
    ensures Inv(Exit(s, p)) && Faithful(Exit(s, p)) && View(Exit(s, p)) == View(s) - {p}
  {
    ExitKeepsInv(s, p);
    var t := Exit(s, p);
    forall q, v | Maps(t, q, v) ensures q != p && Maps(s, q, v) {}
    forall q | q in t.procs ensures SpaceOf(t, q) == SpaceOf(s, q) { SameContents(s, t, q); }
    ViewIs(t, View(s) - {p});
  }

  lemma KernelRefines(s: State, t: State)
    requires Inv(s) && Faithful(s) && Inv(t) && t.procs == s.procs && t.mem == s.mem
    ensures View(t) == View(s) && Faithful(t)
  {
    ViewUnchanged(s, t);
    assert forall p, v :: Maps(t, p, v) ==> Maps(s, p, v) && At(t, p, v) == At(s, p, v);
  }

  /** Every step of the real machine is the step of the simple one: same
      output, same visible memory, invariants kept. */
  lemma StepRefines(s: State, op: Op)
    requires Inv(s) && Faithful(s) && Enabled(s, op) && LaidOut(op)
    ensures Refined(s, op, Real(s, op))
  {
    match op
    case Read(p, addr, g) => ReadRefines(s, p, addr, g);
    case Write(p, addr, w, g) => WriteRefines(s, p, addr, w, g);
    case ForkTo(p, c) => ForkView(s, p, c); ForkFaithful(s, p, c);
    case SetBreak(p, b) => BrkRefines(s, p, b);
    case Replace(p, vmas, heap) => ExecRefines(s, p, vmas, heap);
    case Leave(p) => ExitView(s, p);
    case KernelTake(fs) => GrowKeepsInv(s, fs); KernelRefines(s, Grow(s, fs));
    case KernelGive(f) => ReleaseKeepsInv(s, f); KernelRefines(s, Release(s, f));
  }

  // ---------------------------------------------------------------- whole runs

  lemma AccessKeepsInv(s: State, p: nat, addr: nat, write: bool, g: nat)
    requires Inv(s) && p in s.procs && g < FRAMES
    requires (InMem(s, p); NeedsFrame(s, p, addr, write) ==> IsFree(s, g))
    ensures (InMem(s, p); Inv(Access(s, p, addr, write, g).0))
  {
    InMem(s, p);
    var v := addr / PG_SIZE;
    if !Mmu(s, p, v, write).Granted? {
      match Handle(s, p, addr, write)
      case MapPage(a) => DemandKeepsInv(s, p, v, a, g);
      case SplitPage => assert Maps(s, p, v); SplitKeepsInv(s, p, v, g);
      case ClearCow => assert Maps(s, p, v); ClearKeepsInv(s, p, v);
      case Kill =>
    }
  }

  /** Every step, exec and repeated brk included and with any VMA list, keeps
      references at or above mappings and writable frames unshared. */
  lemma StepKeepsInv(s: State, op: Op)
    requires Inv(s) && Enabled(s, op)
    ensures Inv(Real(s, op).0)
  {
    match op
    case Read(p, addr, g) =>
      AccessKeepsInv(s, p, addr, false, g);
      InMem(s, p);
      ExitKeepsInv(Access(s, p, addr, false, g).0, p);
    case Write(p, addr, w, g) =>
      AccessKeepsInv(s, p, addr, true, g);
      InMem(s, p);
      var (t, ok) := Access(s, p, addr, true, g);
      ExitKeepsInv(t, p);
      if ok {
        assert Maps(t, p, addr / PG_SIZE);
        StoreKeepsInv(t, p, addr / PG_SIZE, addr % PG_SIZE / 8, w);
      }
    case ForkTo(p, c) => ForkKeepsInv(s, p, c);
    case SetBreak(p, b) => if b != 0 { BrkKeepsInv(s, p, b); }
    case Replace(p, vmas, heap) => ExecKeepsInv(s, p, vmas, heap);
    case Leave(p) => ExitKeepsInv(s, p);
    case KernelTake(fs) => GrowKeepsInv(s, fs);
    case KernelGive(f) => ReleaseKeepsInv(s, f);
  }

  ghost predicate Possible(s: State, ops: seq<Op>)
    requires Inv(s)
    decreases |ops|
  {
    |ops| > 0 ==> Enabled(s, ops[0]) && (StepKeepsInv(s, ops[0]); Possible(Real(s, ops[0]).0, ops[1..]))
  }

  ghost function RealRun(s: State, ops: seq<Op>): (r: (State, seq<Output>))
    requires Inv(s) && Possible(s, ops)
    ensures Inv(r.0)
    decreases |ops|
  {
    if ops == [] then (s, [])
    else
      var (t, out) := Real(s, ops[0]);
      StepKeepsInv(s, ops[0]);
      var (u, outs) := RealRun(t, ops[1..]);
      (u, [out] + outs)
  }

  ghost function IdealRun(m: Memory, ops: seq<Op>): (Memory, seq<Output>)
    decreases |ops|
  {
    if ops == [] then (m, [])
    else
      var (n, out) := Ideal(m, ops[0]);
      var (u, outs) := IdealRun(n, ops[1..]);
      (u, [out] + outs)
  }

  /** In every reachable state each frame has at least as many references as
      mappings, and a frame some entry can write has exactly one mapping. */
  lemma ReachableIsSafe(s: State, ops: seq<Op>, f: nat, p: nat, v: nat)
    requires Inv(s) && Possible(s, ops)
    ensures var t := RealRun(s, ops).0;
            && (f in t.mem ==> f < |t.ref| && |Mappers(t, f)| <= t.ref[f])
            && (Maps(t, p, v) && At(t, p, v).writable ==> Mappers(t, At(t, p, v).frame) == {(p, v)})
            && (IsFree(t, f) ==> Mappers(t, f) == {} && f !in t.kernel)
  {
    var t := RealRun(s, ops).0;
    if Maps(t, p, v) && At(t, p, v).writable { WritableIsSole(t, p, v); }
    if IsFree(t, f) { FreeMeansUnused(t, f); }
  }

  /** Copy-on-write refines private memory: over every run the programs see the
      same values, the same faults and the same memory. */
  lemma {:induction false} CowRefinesPrivateMemory(s: State, ops: seq<Op>)
    requires Inv(s) && Faithful(s) && Possible(s, ops) && forall op :: op in ops ==> LaidOut(op)
    ensures RealRun(s, ops).1 == IdealRun(View(s), ops).1
    ensures View(RealRun(s, ops).0) == IdealRun(View(s), ops).0
    ensures Faithful(RealRun(s, ops).0)
    decreases |ops|
  {
    if ops != [] {
      StepRefines(s, ops[0]);
      CowRefinesPrivateMemory(Real(s, ops[0]).0, ops[1..]);
    }
  }
}
