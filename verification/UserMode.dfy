/** User programs on the real tables: each access and system call, carried out on
    page-table pages and reference counts, shows the program what the machine with
    private memory would show it. */
module UserMode {
  import opened Basics
  import opened CowMachine
  import opened CowInvariant
  import opened Hardware
  import opened TableTree
  import opened Paging
  import opened PrivateMemory

  ghost predicate Sound(k: Kernel)
    reads k, k.pageArray
  {
    k.Valid() && Inv(k.Machine()) && Faithful(k.Machine())
  }

  /** Taking kernel frames first changes nothing a program can see. */
  lemma GrowUnseen(s: State, fs: set<nat>)
    requires Inv(s) && Faithful(s) && forall f :: f in fs ==> IsFree(s, f)
    ensures Inv(Grow(s, fs)) && Faithful(Grow(s, fs)) && View(Grow(s, fs)) == View(s)
  {
    GrowKeepsInv(s, fs);
    KernelRefines(s, Grow(s, fs));
  }

  /** Before any fault, and after a fault that kills: the access is settled. */
  lemma Settled(s: State, p: nat, addr: nat, write: bool)
    requires Inv(s) && Faithful(s) && p in s.procs
    requires (InMem(s, p); Mmu(s, p, addr / PG_SIZE, write).Granted? || Handle(s, p, addr, write).Kill?)
    ensures Mmu(s, p, addr / PG_SIZE, write).Granted? <==> Allowed(View(s), p, addr, write)
    ensures View(s) == TouchPage(View(s), p, addr)
  {
    InMem(s, p);
    AccessRefines(s, p, addr, write, 0);
  }

  /** After a fault that the handler repaired: the page is in, nothing else has
      changed for any program, and a second fault of this access kills. */
  lemma Repaired(s: State, t: State, p: nat, addr: nat, write: bool, fs: set<nat>, g: nat)
    requires Inv(s) && Faithful(s) && p in s.procs && !Mmu(s, p, addr / PG_SIZE, write).Granted?
    requires (InMem(s, p); Handled(s, t, p, addr, write, fs, g, Resumed))
    ensures Inv(t) && Faithful(t) && p in t.procs
    ensures Mmu(t, p, addr / PG_SIZE, write).Granted? <==> Allowed(View(s), p, addr, write)
    ensures View(t) == TouchPage(View(s), p, addr)
    ensures (InMem(t, p); Mmu(t, p, addr / PG_SIZE, write).Granted? || Handle(t, p, addr, write).Kill?)
  {
    hide Inv, Faithful, View, Split, Clear, Demand;
    InMem(s, p);
    if Handle(s, p, addr, write).MapPage? {
      GrowUnseen(s, fs);
      RepairedBy(s, Grow(s, fs), t, p, addr, write, g);
    } else if Handle(s, p, addr, write).SplitPage? {
      RepairedBy(s, s, t, p, addr, write, g);
    } else {
      RepairedBy(s, s, t, p, addr, write, 0);
    }
  }

  lemma RepairedBy(s: State, s1: State, t: State, p: nat, addr: nat, write: bool, g: nat)
    requires Inv(s) && Inv(s1) && Faithful(s1) && p in s1.procs && View(s1) == View(s) && s1.procs == s.procs
    requires (InMem(s1, p); g < FRAMES && (NeedsFrame(s1, p, addr, write) ==> IsFree(s1, g))
                            && Access(s1, p, addr, write, g).0 == t
                            && !Mmu(s1, p, addr / PG_SIZE, write).Granted? && !Handle(s1, p, addr, write).Kill?)
    ensures Inv(t) && Faithful(t) && p in t.procs
    ensures Mmu(t, p, addr / PG_SIZE, write).Granted? <==> Allowed(View(s), p, addr, write)
    ensures View(t) == TouchPage(View(s), p, addr)
    ensures (InMem(t, p); Mmu(t, p, addr / PG_SIZE, write).Granted? || Handle(t, p, addr, write).Kill?)
  {
    hide Faithful, View;
    InMem(s1, p);
    AccessRefines(s1, p, addr, write, g);
    if Access(s1, p, addr, write, g).1 { InMem(t, p); }
  }

  lemma AreasOk(s: State, p: nat)
    requires Inv(s) && p in s.procs
    ensures forall a :: a in s.procs[p].vmas ==> VmaOk(a)
  {
  }

  /** A user-mode access: the MMU tries, page_fault_handler repairs or kills, the
      instruction restarts. At most two faults occur, and the outcome is what the
      private-memory machine allows. */
  method Attempt(k: Kernel, p: nat, addr: nat, write: bool) returns (r: Verdict)
    requires Sound(k) && p in k.mms
    modifies k, k.pageArray
    ensures r != Panicked ==> Sound(k) && k.mms == old(k.mms) && p in old(k.Machine()).procs && p in k.Machine().procs
    ensures r != Panicked ==> (r == Resumed <==> Allowed(View(old(k.Machine())), p, addr, write))
    ensures r != Panicked ==> View(k.Machine()) == TouchPage(View(old(k.Machine())), p, addr)
    ensures r == Resumed ==> addr / PG_SIZE < USER_PAGES && Mmu(k.Machine(), p, addr / PG_SIZE, write) == Granted
    ensures r == Panicked ==> k.Free() == 0 && old(k.Free()) <= 4
  {
    hide Good, Inv, Faithful, SpaceOf, Abs, Demand, Split, Clear, Grow;
    var v := addr / PG_SIZE;
    ghost var s := k.Machine();
    MmOf(k.Img(), p);
    var faults := 0;
    while true
      invariant 0 <= faults <= 1 && Sound(k) && k.mms == old(k.mms) && p in k.Machine().procs
      invariant faults == 0 ==> k.Machine() == s
      invariant faults == 1 ==> View(k.Machine()) == TouchPage(View(s), p, addr)
      invariant faults == 1 ==> (Mmu(k.Machine(), p, v, write).Granted? <==> Allowed(View(s), p, addr, write))
      invariant faults == 1 ==>
                  (InMem(k.Machine(), p);
                  Mmu(k.Machine(), p, v, write).Granted? || Handle(k.Machine(), p, addr, write).Kill?)
      invariant old(k.Free()) <= k.Free() + 4 * faults
      decreases 1 - faults
    {
      ghost var t := k.Machine();
      InMem(t, p);
      MmOf(k.Img(), p);
      AreasOk(t, p);
      var present: bool;
      if v < USER_PAGES {
        var found := k.Probe(p, v, write);
        if found.To? {
          if faults == 0 { Settled(s, p, addr, write); }
          return Resumed;
        }
        present := found.protection;
      } else {
        KernelHalf(k.Img(), p, addr);
        present := *;   // as the kernel maps its own half; user mode may not go there
      }
      ghost var fs, g;
      r, fs, g := k.PageFaultHandler(p, addr, true, present, write);
      if r == Panicked { return; }
      if r == Killed {
        if faults == 0 { Settled(s, p, addr, write); }
        return;
      }
      Repaired(s, k.Machine(), p, addr, write, fs, g);
      faults := faults + 1;
    }
  }

  /** A user-mode load of an aligned word. */
  method UserRead(k: Kernel, p: nat, addr: nat) returns (out: Option<Output>)
    requires Sound(k) && p in k.mms
    modifies k, k.pageArray
    ensures out.Some? ==> Sound(k) && (View(k.Machine()), out.value) == Ideal(View(old(k.Machine())), Read(p, addr, 0))
    ensures out.None? ==> k.Free() == 0 && old(k.Free()) <= 4
  {
    hide Good, Faithful, SpaceOf, Abs;
    ghost var s := k.Machine();
    var r := Attempt(k, p, addr, false);
    if r == Panicked { return None; }
    if r == Killed {
      ExitView(k.Machine(), p);
      k.DropProcess(p);
      return Some(SegFault);
    }
    var w := k.Load(p, addr / PG_SIZE, addr % PG_SIZE / 8);
    LoadSeen(k.Machine(), p, addr / PG_SIZE);
    out := Some(Value(w));
  }

  lemma LoadSeen(s: State, p: nat, v: nat)
    requires Inv(s) && p in s.procs && v in s.procs[p].pt
    ensures s.procs[p].pt[v].frame in s.mem && v in View(s)[p].pages
    ensures View(s)[p].pages[v] == s.mem[s.procs[p].pt[v].frame]
  {
    InMem(s, p);
  }

  /** A user-mode store of an aligned word. */
  method UserWrite(k: Kernel, p: nat, addr: nat, w: Word) returns (out: Option<Output>)
    requires Sound(k) && p in k.mms
    modifies k, k.pageArray
    ensures out.Some? ==>
              Sound(k) && (View(k.Machine()), out.value) == Ideal(View(old(k.Machine())), Write(p, addr, w, 0))
    ensures out.None? ==> k.Free() == 0 && old(k.Free()) <= 4
  {
    hide Good, SpaceOf, Abs, Faithful, Placed, Exclusive, Counted, VmasOk;
    ghost var s := k.Machine();
    var r := Attempt(k, p, addr, true);
    if r == Panicked { return None; }
    ghost var t := k.Machine();
    if r == Killed {
      ExitView(t, p);
      k.DropProcess(p);
      assert View(t) - {p} == View(s) - {p};
      return Some(SegFault);
    }
    var v, i := addr / PG_SIZE, addr % PG_SIZE / 8;
    assert Maps(t, p, v);
    LoadSeen(t, p, v);
    StoreView(t, p, v, i, w);
    StoreFaithful(t, p, v, i, w);
    k.Put(p, v, i, w);
    out := Some(Stored);
  }

  /** fork, seen by programs: the child gets a copy of everything. */
  method UserFork(k: Kernel, p: nat, c: nat) returns (out: Option<Output>)
    requires Sound(k) && p in k.mms && c !in k.mms
    modifies k, k.pageArray
    ensures out.Some? ==> Sound(k) && (View(k.Machine()), out.value) == Ideal(View(old(k.Machine())), ForkTo(p, c))
    ensures out.None? ==> k.Free() == 0 && old(k.Free()) <= 4 + |old(k.mms[p].vmas)| + |Tables(old(k.node), p)|
  {
    hide Good, Abs, Fork, SpaceOf, Grow, Inv, Faithful;
    ghost var s := k.Machine();
    var ok, fs := k.ForkProcess(p, c);
    if !ok { return None; }
    ForkView(s, p, c);
    ForkFaithful(s, p, c);
    forall f | f in fs ensures IsFree(Fork(s, p, c), f) { StillFree(s, p, c, f); }
    GrowUnseen(Fork(s, p, c), fs);
    out := Some(Returned(c));
  }

  lemma StillFree(s: State, p: nat, c: nat, f: nat)
    requires Inv(s) && p in s.procs && IsFree(s, f)
    ensures IsFree(Fork(s, p, c), f)
  {
    var q := s.procs[p];
    forall x | x in Copies(q, f) ensures false { MappedNotFree(s, p, x.1); }
    assert Copies(q, f) == {};
  }

  /** A break that the kernel answers without a panic. */
  predicate BreakOk(heap: nat, newBreak: nat) {
    newBreak == 0 || heap < newBreak < HEAP_LIMIT
  }

  /** brk, seen by programs. */
  method UserBrk(k: Kernel, p: nat, newBreak: nat) returns (out: Option<Output>)
    requires Sound(k) && p in k.mms
    modifies k, k.pageArray
    ensures out.Some? ==>
              Sound(k) && (View(k.Machine()), out.value) == Ideal(View(old(k.Machine())), SetBreak(p, newBreak))
    ensures out.None? && BreakOk(old(k.mms[p].heap), newBreak) ==> k.Free() == 0 && old(k.Free()) <= 1
  {
    hide Good, Abs, SpaceOf, Grow, Inv, Faithful, Brk;
    ghost var s := k.Machine();
    MmOf(k.Img(), p);
    var r, fs := k.BrkProcess(p, newBreak);
    if r.None? { return None; }
    if newBreak != 0 {
      GrowUnseen(s, fs);
      HeapKept(s, fs, p);
      BrkRefines(Grow(s, fs), p, newBreak);
    } else {
      BrkRefines(s, p, 0);
    }
    out := Some(Returned(r.value));
  }

  lemma GrowSeen(s: State, fs: set<nat>)
    requires Inv(s) && forall f :: f in fs ==> IsFree(s, f)
    ensures Inv(Grow(s, fs)) && View(Grow(s, fs)) == View(s)
  {
    GrowKeepsInv(s, fs);
    ViewUnchanged(s, Grow(s, fs));
  }

  /** exec, seen by programs: the caller, which may be a thread without memory, starts
      from an empty address space, whatever VMA list it is given; with a consistent
      one what follows is private memory's too. */
  method UserExec(k: Kernel, p: nat, vmas: seq<Vma>, heap: nat) returns (out: Option<Output>)
    requires Sound(k) && forall a :: a in vmas ==> VmaOk(a)
    modifies k, k.pageArray
    ensures out.Some? ==> k.Valid() && Inv(k.Machine())
    ensures out.Some? ==> (View(k.Machine()), out.value) == Ideal(View(old(k.Machine())), Replace(p, vmas, heap))
    ensures out.Some? && Consistent(vmas, heap) ==> Sound(k)
    ensures out.None? ==> k.Free() == 0 && old(k.Free()) <= 4 + |vmas|
  {
    hide Good, Abs, SpaceOf, Grow, Inv, Faithful, Consistent, View;
    ghost var s := k.Machine();
    var ok, fs := k.ExecProcess(p, vmas, heap);
    if !ok { return None; }
    ExecView(s, p, vmas, heap);
    GrowSeen(Exec(s, p, vmas, heap), fs);
    if Consistent(vmas, heap) {
      ExecRefines(s, p, vmas, heap);
      GrowUnseen(Exec(s, p, vmas, heap), fs);
    }
    out := Some(Silent);
  }

  /** exit, seen by programs: the caller is gone. */
  method UserLeave(k: Kernel, p: nat) returns (out: Output)
    requires Sound(k)
    modifies k, k.pageArray
    ensures Sound(k) && (View(k.Machine()), out) == Ideal(View(old(k.Machine())), Leave(p))
  {
    hide Good, Abs, SpaceOf, Inv, Faithful;
    ExitView(k.Machine(), p);
    k.DropProcess(p);
    return Silent;
  }

  // ---------------------------------------------------------------- sequences of calls

  /** A call that a program can make when memory is m. */
  ghost predicate Callable(m: Memory, op: Op) {
    match op
    case Read(p, _, _) => p in m
    case Write(p, _, _, _) => p in m
    case ForkTo(p, c) => p in m && c !in m
    case SetBreak(p, b) => p in m && BreakOk(m[p].heap, b)
    case Replace(_, vmas, heap) => Consistent(vmas, heap) && forall a :: a in vmas ==> VmaOk(a)
    case Leave(p) => p in m
    case _ => false
  }

  /** Each call is one that a program can make where private memory then stands. */
  ghost predicate CallableAll(m: Memory, ops: seq<Op>)
    decreases |ops|
  {
    ops != [] ==> Callable(m, ops[0]) && CallableAll(Ideal(m, ops[0]).0, ops[1..])
  }

  lemma ProcessesOf(k: Kernel, p: nat)
    requires Sound(k)
    ensures p in k.mms <==> p in View(k.Machine())
    ensures p in k.mms ==> View(k.Machine())[p].heap == k.mms[p].heap
  {
    hide Linked, Leaves, Rooted, KernelSlots, Closed, Template;
    MmOf(k.Img(), p);
  }

  /** One call on the real tables is one step of private memory. */
  method Call(k: Kernel, op: Op) returns (out: Option<Output>)
    requires Sound(k) && Callable(View(k.Machine()), op)
    modifies k, k.pageArray
    ensures out.Some? ==> Sound(k) && (View(k.Machine()), out.value) == Ideal(View(old(k.Machine())), op)
    ensures out.None? ==> k.Free() == 0
  {
    hide Good, Inv, Faithful, Abs, Ideal, View, Consistent;
    match op {
      case Read(p, addr, g) =>
        ProcessesOf(k, p);
        IgnoresFrame(View(k.Machine()), op);
        out := UserRead(k, p, addr);
      case Write(p, addr, w, g) =>
        ProcessesOf(k, p);
        IgnoresFrame(View(k.Machine()), op);
        out := UserWrite(k, p, addr, w);
      case ForkTo(p, c) =>
        ProcessesOf(k, p);
        ProcessesOf(k, c);
        out := UserFork(k, p, c);
      case SetBreak(p, b) =>
        ProcessesOf(k, p);
        out := UserBrk(k, p, b);
      case Replace(p, vmas, heap) =>
        out := UserExec(k, p, vmas, heap);
      case Leave(p) =>
        var o := UserLeave(k, p);
        out := Some(o);
    }
  }

  lemma IgnoresFrame(m: Memory, op: Op)
    ensures op.Read? ==> Ideal(m, op) == Ideal(m, Read(op.p, op.addr, 0))
    ensures op.Write? ==> Ideal(m, op) == Ideal(m, Write(op.p, op.addr, op.w, 0))
  {
  }

  /** A whole sequence of calls on one kernel: as far as frames last, programs get
      private memory's answers, and the memory they see is private memory's. */
  method Calls(k: Kernel, ops: seq<Op>) returns (outs: seq<Output>)
    requires Sound(k) && CallableAll(View(k.Machine()), ops)
    modifies k, k.pageArray
    ensures |outs| <= |ops| && outs <= IdealRun(View(old(k.Machine())), ops).1
    ensures |outs| == |ops| ==> Sound(k) && View(k.Machine()) == IdealRun(View(old(k.Machine())), ops).0
    ensures |outs| < |ops| ==> k.Free() == 0
  {
    hide Good, Inv, Faithful, Abs, Ideal, View, Callable;
    outs := [];
    ghost var m := View(k.Machine());
    RunLength(m, ops);
    var i := 0;
    while i < |ops|
      invariant 0 <= i <= |ops| && |outs| == i && Sound(k) && CallableAll(View(k.Machine()), ops[i..])
      invariant IdealRun(m, ops).1 == outs + IdealRun(View(k.Machine()), ops[i..]).1
      invariant IdealRun(m, ops).0 == IdealRun(View(k.Machine()), ops[i..]).0
    {
      assert ops[i..][0] == ops[i] && ops[i..][1..] == ops[i + 1..];
      var out := Call(k, ops[i]);
      if out.None? { return; }
      outs := outs + [out.value];
      i := i + 1;
    }
  }

  lemma {:induction false} RunLength(m: Memory, ops: seq<Op>)
    ensures |IdealRun(m, ops).1| == |ops|
    decreases |ops|
  {
    if ops != [] { RunLength(Ideal(m, ops[0]).0, ops[1..]); }
  }
}
