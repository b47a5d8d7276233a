/** The stores that the paging code makes into physical memory, and what each
    means for the copy-on-write machine: every one keeps the tables a tree. */
module TableUpdates {
  import opened CowMachine
  import opened TableTree

  ghost predicate FreeFrame(m: Image, f: nat) {
    FREE_START <= f < FREE_END && f < |m.ref| && m.ref[f] == 0
  }

  lemma FreeFrameUnused(m: Image, f: nat)
    requires Good(m) && FreeFrame(m, f)
    ensures f < FRAMES && f !in m.kernel && f !in m.data && forall k :: k in m.node ==> m.node[k] != f
    ensures IsFree(Abs(m), f) && |Abs(m).ref| == FRAMES
  {
  }

  // ---------------------------------------------------------------- kernel frames

  /** get_zero_page for a descriptor, a stack or a directory. */
  ghost function TakeFrame(m: Image, f: nat): Image
    requires Sizes(m) && f < FRAMES
  {
    m.(ram := m.ram[f := ZeroPage()], ref := m.ref[f := 1], kernel := m.kernel + {f})
  }

  lemma SameTablesGood(m: Image, n: Image)
    requires Good(m) && Sizes(n) && Owned(n) && n.mms == m.mms && n.node == m.node && m.data <= n.data
    requires n.kpgd == m.kpgd && m.kernel <= n.kernel && n.ram[m.kpgd] == m.ram[m.kpgd]
    requires forall k :: k in m.node ==> n.ram[m.node[k]] == m.ram[m.node[k]]
    ensures Good(n)
  {
    hide KernelHalfOf, Entry, PteOf, PteWord;
    forall k, i | k in n.node && k.level == 3 && 0 <= i < 512 ensures LeafOk(n, n.ram[n.node[k]][i]) {
      assert LeafOk(m, m.ram[m.node[k]][i]);
    }
    forall k | k in n.node && k.level == 0 ensures KernelHalfOf(n, n.node[k]) { SameHalf(m, n, m.node[k]); }
  }

  lemma SameTables(m: Image, n: Image)
    requires Good(m) && Sizes(n) && Owned(n) && n.mms == m.mms && n.node == m.node && m.data <= n.data
    requires n.kpgd == m.kpgd && m.kernel <= n.kernel && n.ram[m.kpgd] == m.ram[m.kpgd]
    requires forall k :: k in m.node ==> n.ram[m.node[k]] == m.ram[m.node[k]]
    ensures Good(n) && Abs(n).procs == Abs(m).procs
  {
    SameTablesGood(m, n);
    forall p | p in m.mms ensures ProcOf(n, p) == ProcOf(m, p) { SamePt(m, n, p, p); }
    ProcsAre(n, Abs(m).procs);
  }

  lemma TakeFrameGrows(m: Image, f: nat)
    requires Good(m) && FreeFrame(m, f)
    ensures f < FRAMES && Good(TakeFrame(m, f)) && Abs(TakeFrame(m, f)) == Grow(Abs(m), {f})
  {
    FreeFrameUnused(m, f);
    var n := TakeFrame(m, f);
    SameTables(m, n);
    assert Abs(n).ref == Grow(Abs(m), {f}).ref;
  }

  lemma GrowTwice(s: State, a: set<nat>, b: set<nat>)
    ensures Grow(Grow(s, a), b) == Grow(s, a + b)
  {
    assert Grow(Grow(s, a), b).ref == Grow(s, a + b).ref;
    assert Grow(Grow(s, a), b).kernel == Grow(s, a + b).kernel;
  }

  lemma GrowNothing(s: State)
    ensures Grow(s, {}) == s
  {
    assert Grow(s, {}).ref == s.ref;
  }

  // ---------------------------------------------------------------- tables

  /** A new zeroed table in frame f, linked from slot i of table k. */
  ghost function AddTable(m: Image, k: Key, i: nat, f: nat): Image
    requires Sizes(m) && f < FRAMES && k in m.node && m.node[k] < FRAMES && i < 512
  {
    var r := m.ram[f := ZeroPage()];
    m.(ram := r[m.node[k] := r[m.node[k]][i := Entry(f, TABLE_FLAGS)]],
       ref := m.ref[f := 1], kernel := m.kernel + {f}, node := m.node[k.Child(i) := f])
  }

  lemma ChildUnique(k: Key, i: nat, j: Key, l: nat)
    requires i < 512 && l < 512 && k.Child(i) == j.Child(l)
    ensures k == j && i == l
  {
  }

  lemma ChildParent(k: Key, i: nat)
    requires i < 512
    ensures k.Child(i).Parent() == k
  {
  }

  /** When table k can get a new child table in slot i, in frame f. */
  ghost predicate CanAdd(m: Image, k: Key, i: nat, f: nat) {
    FreeFrame(m, f) && k in m.node && k.level < 3 && UserSlot(k, i) && k.Child(i) !in m.node
  }

  lemma AddTableOwned(m: Image, k: Key, i: nat, f: nat)
    requires Sizes(m) && Owned(m) && CanAdd(m, k, i, f)
    ensures f < FRAMES && m.node[k] < FRAMES && f !in m.kernel && f !in m.data
    ensures Owned(AddTable(m, k, i, f))
  {
  }

  lemma AddTableRooted(m: Image, k: Key, i: nat, f: nat)
    requires Sizes(m) && Owned(m) && Rooted(m) && CanAdd(m, k, i, f) && f < FRAMES && m.node[k] < FRAMES
    ensures Rooted(AddTable(m, k, i, f))
  {
    assert KeyOk(m, k);
    assert KeyOk(AddTable(m, k, i, f), k.Child(i));
  }

  lemma AddTableClosed(m: Image, k: Key, i: nat, f: nat)
    requires Sizes(m) && Closed(m) && CanAdd(m, k, i, f) && f < FRAMES && m.node[k] < FRAMES
    ensures Closed(AddTable(m, k, i, f))
  {
    var n := AddTable(m, k, i, f);
    forall j: Key | j in n.node && j.level > 0 ensures j.Parent() in n.node {
      if j == k.Child(i) { ChildParent(k, i); }
    }
  }

  lemma AddTableSelf(m: Image, k: Key, i: nat, f: nat)
    requires Sizes(m) && Owned(m) && KernelSlots(m) && Template(m) && CanAdd(m, k, i, f)
    requires f < FRAMES && m.node[k] < FRAMES && f !in m.kernel && Owned(AddTable(m, k, i, f))
    ensures KernelSlots(AddTable(m, k, i, f))
  {
    hide Entry, KernelHalfOf;
    var n := AddTable(m, k, i, f);
    forall j | j in n.node && j.level == 0 ensures KernelHalfOf(n, n.node[j]) {
      assert j in m.node && m.node[j] in m.kernel && (m.node[j] == m.node[k] ==> j == k);
      SameHalf(m, n, m.node[j]);
    }
  }

  lemma SameHalf(m: Image, n: Image, f: nat)
    requires KernelHalfOf(m, f) && n.kpgd == m.kpgd && |n.ram| == |m.ram|
    requires forall i :: USER_SLOTS <= i < WORDS ==> n.ram[f][i] == m.ram[f][i] && n.ram[m.kpgd][i] == m.ram[m.kpgd][i]
    ensures KernelHalfOf(n, f)
  {
    hide Entry;
  }

  lemma AddTableTemplate(m: Image, k: Key, i: nat, f: nat)
    requires Sizes(m) && Owned(m) && Template(m) && CanAdd(m, k, i, f)
    requires f < FRAMES && m.node[k] < FRAMES && f !in m.kernel && Owned(AddTable(m, k, i, f))
    ensures Template(AddTable(m, k, i, f))
  {
  }

  lemma AddTableLink(m: Image, k: Key, i: nat, f: nat, j: Key, l: nat)
    requires Sizes(m) && Owned(m) && Linked(m) && Closed(m) && CanAdd(m, k, i, f) && f < FRAMES && m.node[k] < FRAMES
             && Owned(AddTable(m, k, i, f))
    requires j in AddTable(m, k, i, f).node && j.level < 3 && UserSlot(j, l) && f !in m.kernel
    ensures var n := AddTable(m, k, i, f);
            n.ram[n.node[j]][l] == if j.Child(l) in n.node then Entry(n.node[j.Child(l)], TABLE_FLAGS) else 0
  {
    var n := AddTable(m, k, i, f);
    if j == k.Child(i) {
      // the new table is empty, and nothing lies below it yet
      ChildParent(j, l);
      assert j.Child(l) !in m.node;
    } else {
      assert m.node[j] in m.kernel;
      if l == i && j == k {
      } else if j.Child(l) == k.Child(i) {
        ChildUnique(k, i, j, l);
      }
    }
  }

  lemma AddTableLeaf(m: Image, k: Key, i: nat, f: nat, j: Key, l: nat)
    requires Sizes(m) && Owned(m) && Leaves(m) && CanAdd(m, k, i, f) && f < FRAMES && m.node[k] < FRAMES
             && Owned(AddTable(m, k, i, f))
    requires j in AddTable(m, k, i, f).node && j.level == 3 && l < 512 && f !in m.kernel
    ensures LeafOk(AddTable(m, k, i, f), AddTable(m, k, i, f).ram[AddTable(m, k, i, f).node[j]][l])
  {
    if j != k.Child(i) {
      assert m.node[j] in m.kernel;
      assert LeafOk(m, m.ram[m.node[j]][l]);
    }
  }

  lemma AddTableLinks(m: Image, k: Key, i: nat, f: nat)
    requires Good(m) && CanAdd(m, k, i, f) && f < FRAMES && m.node[k] < FRAMES && f !in m.kernel
    requires Owned(AddTable(m, k, i, f))
    ensures Linked(AddTable(m, k, i, f)) && Leaves(AddTable(m, k, i, f))
  {
    hide Entry, LeafOk, Rooted, KernelSlots, Template;
    var n := AddTable(m, k, i, f);
    forall j: Key, l: nat | j in n.node && j.level < 3 && UserSlot(j, l)
      ensures n.ram[n.node[j]][l] == if j.Child(l) in n.node then Entry(n.node[j.Child(l)], TABLE_FLAGS) else 0
    {
      AddTableLink(m, k, i, f, j, l);
    }
    forall j, l | j in n.node && j.level == 3 && 0 <= l < 512 ensures LeafOk(n, n.ram[n.node[j]][l]) {
      AddTableLeaf(m, k, i, f, j, l);
    }
  }

  lemma AddTableGood(m: Image, k: Key, i: nat, f: nat)
    requires Good(m) && CanAdd(m, k, i, f)
    ensures f < FRAMES && m.node[k] < FRAMES && Good(AddTable(m, k, i, f))
  {
    hide Linked, Leaves, Rooted, KernelSlots, Closed, Template;
    AddTableOwned(m, k, i, f);
    AddTableRooted(m, k, i, f);
    AddTableClosed(m, k, i, f);
    AddTableTemplate(m, k, i, f);
    AddTableSelf(m, k, i, f);
    AddTableLinks(m, k, i, f);
  }

  lemma AddTableLeafWord(m: Image, k: Key, i: nat, f: nat, p: nat, v: nat)
    requires Sizes(m) && Owned(m) && k in m.node && k.level < 3 && i < 512
    requires f < FRAMES && f !in m.kernel && Owned(AddTable(m, k, i, f)) && k.Child(i) !in m.node
    ensures LeafWord(AddTable(m, k, i, f), p, v) == LeafWord(m, p, v)
  {
    var j := PteKey(p, v);
    if j in m.node {
      assert m.node[j] in m.kernel;
      assert m.node[j] != m.node[k];
    }
  }

  lemma AddTableProcs(m: Image, k: Key, i: nat, f: nat)
    requires Sizes(m) && Owned(m) && k in m.node && k.level < 3 && i < 512
    requires f < FRAMES && f !in m.kernel && Owned(AddTable(m, k, i, f)) && k.Child(i) !in m.node
    ensures Abs(AddTable(m, k, i, f)).procs == Abs(m).procs
  {
    var n := AddTable(m, k, i, f);
    forall p | p in m.mms ensures ProcOf(n, p) == ProcOf(m, p) {
      forall v: nat ensures LeafWord(n, p, v) == LeafWord(m, p, v) { AddTableLeafWord(m, k, i, f, p, v); }
      SamePt(m, n, p, p);
    }
    ProcsAre(n, Abs(m).procs);
  }

  lemma AddTableRest(m: Image, k: Key, i: nat, f: nat)
    requires Sizes(m) && Owned(m) && k in m.node && i < 512 && f < FRAMES && f !in m.data && Owned(AddTable(m, k, i, f))
    ensures Abs(AddTable(m, k, i, f)).ref == Grow(Abs(m), {f}).ref && Abs(AddTable(m, k, i, f)).mem == Abs(m).mem
  {
    assert m.node[k] in m.kernel;
  }

  lemma AddTableGrows(m: Image, k: Key, i: nat, f: nat)
    requires Good(m) && CanAdd(m, k, i, f)
    ensures f < FRAMES && m.node[k] < FRAMES && Good(AddTable(m, k, i, f))
    ensures Abs(AddTable(m, k, i, f)) == Grow(Abs(m), {f})
  {
    AddTableOwned(m, k, i, f);
    AddTableGood(m, k, i, f);
    AddTableProcs(m, k, i, f);
    AddTableRest(m, k, i, f);
  }

  // ---------------------------------------------------------------- leaf entries

  ghost function SetLeaf(m: Image, p: nat, v: nat, e: Pte): Image
    requires Sizes(m) && Owned(m) && PteKey(p, v) in m.node && e.frame < FRAMES
  {
    var t := m.node[PteKey(p, v)];
    m.(ram := m.ram[t := m.ram[t][PteOff(v) := PteWord(e)]])
  }

  lemma SetLeafLinked(m: Image, p: nat, v: nat, e: Pte)
    requires Sizes(m) && Owned(m) && Linked(m) && PteKey(p, v) in m.node && e.frame < FRAMES
             && Owned(SetLeaf(m, p, v, e))
    ensures Linked(SetLeaf(m, p, v, e))
  {
    hide Entry, PteWord;
    var n := SetLeaf(m, p, v, e);
    forall j: Key, l: nat | j in n.node && j.level < 3 && UserSlot(j, l)
      ensures n.ram[n.node[j]][l] == if j.Child(l) in n.node then Entry(n.node[j.Child(l)], TABLE_FLAGS) else 0
    {
      assert m.node[j] != m.node[PteKey(p, v)];
    }
  }

  lemma SetLeafLeaves(m: Image, p: nat, v: nat, e: Pte)
    requires Sizes(m) && Owned(m) && Leaves(m) && PteKey(p, v) in m.node && e.frame in m.data && e.frame < FRAMES
    requires Owned(SetLeaf(m, p, v, e))
    ensures Leaves(SetLeaf(m, p, v, e))
  {
    PteRoundTrip(e);
    hide Entry, PteWord, PteOf;
    var n := SetLeaf(m, p, v, e);
    forall k, i | k in n.node && k.level == 3 && 0 <= i < 512 ensures LeafOk(n, n.ram[n.node[k]][i]) {
      assert LeafOk(m, m.ram[m.node[k]][i]);
    }
  }

  lemma SetLeafOthers(m: Image, p: nat, v: nat, e: Pte)
    requires Sizes(m) && Owned(m) && Rooted(m) && KernelSlots(m) && Closed(m) && Template(m)
    requires PteKey(p, v) in m.node && e.frame < FRAMES
    ensures var n := SetLeaf(m, p, v, e);
            Sizes(n) && Owned(n) && Rooted(n) && KernelSlots(n) && Closed(n) && Template(n)
  {
    hide Entry, PteWord, KernelSlots;
    var n := SetLeaf(m, p, v, e);
    forall k | k in n.node ensures KeyOk(n, k) { assert KeyOk(m, k); }
    SetLeafKernel(m, p, v, e);
  }

  lemma SetLeafKernel(m: Image, p: nat, v: nat, e: Pte)
    requires Sizes(m) && Owned(m) && KernelSlots(m) && Template(m)
    requires PteKey(p, v) in m.node && e.frame < FRAMES && Owned(SetLeaf(m, p, v, e))
    ensures KernelSlots(SetLeaf(m, p, v, e))
  {
    hide Entry, PteWord, KernelHalfOf;
    var n := SetLeaf(m, p, v, e);
    forall k | k in n.node && k.level == 0 ensures KernelHalfOf(n, n.node[k]) {
      assert m.node[k] != m.node[PteKey(p, v)];
      SameHalf(m, n, m.node[k]);
    }
  }

  lemma SetLeafGood(m: Image, p: nat, v: nat, e: Pte)
    requires Good(m) && PteKey(p, v) in m.node && e.frame in m.data
    ensures e.frame < FRAMES && Good(SetLeaf(m, p, v, e))
  {
    hide Linked, Leaves, Rooted, KernelSlots, Closed, Template;
    SetLeafOthers(m, p, v, e);
    SetLeafLinked(m, p, v, e);
    SetLeafLeaves(m, p, v, e);
  }

  lemma LeafWordAfter(m: Image, p: nat, v: nat, e: Pte, q: nat, u: nat)
    requires Good(m) && PteKey(p, v) in m.node && e.frame in m.data
    ensures e.frame < FRAMES
    ensures LeafWord(SetLeaf(m, p, v, e), q, u) == if q == p && u == v then PteWord(e) else LeafWord(m, q, u)
  {
    if PteKey(q, u) in m.node && m.node[PteKey(q, u)] == m.node[PteKey(p, v)] {
      assert PteKey(q, u) == PteKey(p, v);
    }
  }

  lemma SetLeafPt(m: Image, p: nat, v: nat, e: Pte, q: nat)
    requires Good(m) && PteKey(p, v) in m.node && e.frame in m.data && v < USER_PAGES
    requires e.frame < FRAMES && Good(SetLeaf(m, p, v, e))
    ensures PtOf(SetLeaf(m, p, v, e), q) == if q == p then PtOf(m, p)[v := e] else PtOf(m, q)
  {
    var n := SetLeaf(m, p, v, e);
    forall u: nat ensures LeafWord(n, q, u) == if q == p && u == v then PteWord(e) else LeafWord(m, q, u) {
      LeafWordAfter(m, p, v, e, q, u);
    }
    PteRoundTrip(e);
    if q == p { PtUpdate(m, n, p, v, PteWord(e)); } else { SamePt(m, n, q, q); }
  }

  lemma PtUpdate(m: Image, n: Image, p: nat, v: nat, w: Word)
    requires Sizes(m) && Owned(m) && Sizes(n) && Owned(n) && v < USER_PAGES && w != 0
    requires forall u: nat :: LeafWord(n, p, u) == if u == v then w else LeafWord(m, p, u)
    ensures PtOf(n, p) == PtOf(m, p)[v := PteOf(w)]
  {
  }

  /** Storing an entry is a one-key update of one process's page map. */
  lemma SetLeafMaps(m: Image, p: nat, v: nat, e: Pte)
    requires Good(m) && PteKey(p, v) in m.node && e.frame in m.data && v < USER_PAGES
    ensures p in m.mms && e.frame < FRAMES && Good(SetLeaf(m, p, v, e)) && p in Abs(m).procs
    ensures var s := Abs(m);
            Abs(SetLeaf(m, p, v, e)) == s.(procs := s.procs[p := s.procs[p].(pt := s.procs[p].pt[v := e])])
  {
    hide Linked, Leaves, KernelSlots, Closed, Template, PtOf;
    assert KeyOk(m, PteKey(p, v));
    SetLeafGood(m, p, v, e);
    var n := SetLeaf(m, p, v, e);
    var s := Abs(m);
    var procs := s.procs[p := s.procs[p].(pt := s.procs[p].pt[v := e])];
    forall q | q in m.mms ensures ProcOf(n, q) == procs[q] { SetLeafPt(m, p, v, e, q); }
    ProcsAre(n, procs);
    SetLeafMem(m, p, v, e);
  }

  lemma SetLeafMem(m: Image, p: nat, v: nat, e: Pte)
    requires Sizes(m) && Owned(m) && PteKey(p, v) in m.node && e.frame < FRAMES && Owned(SetLeaf(m, p, v, e))
    ensures Abs(SetLeaf(m, p, v, e)).mem == Abs(m).mem
  {
    assert m.node[PteKey(p, v)] in m.kernel;
  }

  // ---------------------------------------------------------------- data frames

  /** get_zero_page for user data, filled with `page`. */
  ghost function AddData(m: Image, g: nat, page: Page): Image
    requires Sizes(m) && g < FRAMES
  {
    m.(ram := m.ram[g := page], ref := m.ref[g := 1], data := m.data + {g})
  }

  lemma AddDataGood(m: Image, g: nat, page: Page)
    requires Good(m) && FreeFrame(m, g)
    ensures g < FRAMES && |Abs(m).ref| == FRAMES && Good(AddData(m, g, page))
    ensures Abs(AddData(m, g, page)) == Abs(m).(ref := Abs(m).ref[g := 1], mem := Abs(m).mem[g := page])
  {
    FreeFrameUnused(m, g);
    var n := AddData(m, g, page);
    SameTables(m, n);
    assert Abs(n).mem == Abs(m).mem[g := page];
  }

  ghost function PutData(m: Image, f: nat, page: Page): Image
    requires Sizes(m) && f < FRAMES
  {
    m.(ram := m.ram[f := page])
  }

  lemma PutDataGood(m: Image, f: nat, page: Page)
    requires Good(m) && f in m.data
    ensures f < FRAMES && Good(PutData(m, f, page))
    ensures Abs(PutData(m, f, page)) == Abs(m).(mem := Abs(m).mem[f := page])
  {
    var n := PutData(m, f, page);
    SameTables(m, n);
    assert Abs(n).mem == Abs(m).mem[f := page];
  }

  ghost function SetRef(m: Image, f: nat, r: int): Image
    requires Sizes(m) && f < FRAMES
  {
    m.(ref := m.ref[f := r])
  }

  lemma SetRefGood(m: Image, f: nat, r: int)
    requires Good(m) && f < FRAMES && r >= 1
    ensures Abs(m).ref == m.ref && Good(SetRef(m, f, r)) && Abs(SetRef(m, f, r)) == Abs(m).(ref := Abs(m).ref[f := r])
  {
    SameTables(m, SetRef(m, f, r));
  }

  // ---------------------------------------------------------------- directories

  /** A process gets directory frame f, whose user half is empty. */
  ghost function AddRoot(m: Image, p: nat, mm: Mm): Image {
    m.(mms := m.mms[p := mm], node := m.node[Key(p, 0, 0) := mm.pgd])
  }

  ghost predicate NewRoot(m: Image, p: nat, mm: Mm)
    requires Sizes(m) && Owned(m)
  {
    && p !in m.mms && mm.pgd in m.kernel && (forall k :: k in m.node ==> m.node[k] != mm.pgd)
    && mm.pgd != m.kpgd && (forall i :: 0 <= i < USER_SLOTS ==> m.ram[mm.pgd][i] == 0)
    && KernelHalfOf(m, mm.pgd)
  }

  lemma AddRootFresh(m: Image, p: nat)
    requires Rooted(m) && p !in m.mms
    ensures forall k :: k in m.node ==> k.p != p
  {
    forall k | k in m.node ensures k.p != p { assert KeyOk(m, k); }
  }

  lemma AddRootOwned(m: Image, p: nat, mm: Mm)
    requires Sizes(m) && Owned(m) && NewRoot(m, p, mm) && forall k :: k in m.node ==> k.p != p
    ensures var n := AddRoot(m, p, mm); Sizes(n) && Owned(n)
  {
    hide Entry;
  }

  lemma AddRootBase(m: Image, p: nat, mm: Mm)
    requires Sizes(m) && Owned(m) && Rooted(m) && Closed(m) && Template(m) && NewRoot(m, p, mm)
    ensures var n := AddRoot(m, p, mm); Sizes(n) && Owned(n) && Rooted(n) && Closed(n) && Template(n)
    ensures forall k :: k in m.node ==> k.p != p
  {
    hide Entry, Owned;
    AddRootFresh(m, p);
    AddRootOwned(m, p, mm);
    var n := AddRoot(m, p, mm);
    forall k | k in n.node ensures KeyOk(n, k) { assert k != Key(p, 0, 0) ==> KeyOk(m, k); }
  }

  lemma AddRootSelf(m: Image, p: nat, mm: Mm)
    requires Sizes(m) && Owned(m) && Owned(AddRoot(m, p, mm)) && KernelSlots(m) && NewRoot(m, p, mm)
    ensures KernelSlots(AddRoot(m, p, mm))
  {
    hide Entry, Owned;
  }

  lemma AddRootLinked(m: Image, p: nat, mm: Mm)
    requires Sizes(m) && Owned(m) && Owned(AddRoot(m, p, mm)) && Linked(m) && NewRoot(m, p, mm)
    requires forall k :: k in m.node ==> k.p != p
    ensures Linked(AddRoot(m, p, mm))
  {
    hide Entry;
    var n := AddRoot(m, p, mm);
    forall k: Key, i: nat | k in n.node && k.level < 3 && UserSlot(k, i)
      ensures n.ram[n.node[k]][i] == if k.Child(i) in n.node then Entry(n.node[k.Child(i)], TABLE_FLAGS) else 0
    {
      assert k.Child(i).p == k.p;
    }
  }

  lemma AddRootGood(m: Image, p: nat, mm: Mm)
    requires Good(m) && NewRoot(m, p, mm)
    ensures Good(AddRoot(m, p, mm))
    ensures forall k :: k in m.node ==> k.p != p
  {
    hide Linked, Rooted, KernelSlots, Closed, Template, Entry, PteOf, PteWord;
    AddRootBase(m, p, mm);
    AddRootSelf(m, p, mm);
    AddRootLinked(m, p, mm);
    var n := AddRoot(m, p, mm);
    forall k, i | k in n.node && k.level == 3 && 0 <= i < 512 ensures LeafOk(n, n.ram[n.node[k]][i]) {
      assert LeafOk(m, m.ram[m.node[k]][i]);
    }
  }

  lemma AddRootPt(m: Image, p: nat, mm: Mm, q: nat)
    requires Good(m) && Good(AddRoot(m, p, mm)) && forall k :: k in m.node ==> k.p != p
    ensures PtOf(AddRoot(m, p, mm), q) == if q == p then map[] else PtOf(m, q)
  {
    hide Linked, Leaves, Rooted, KernelSlots, Closed, Template;
    var n := AddRoot(m, p, mm);
    if q == p {
      forall v: nat ensures LeafWord(n, p, v) == 0 {}
    } else {
      forall v: nat ensures LeafWord(n, q, v) == LeafWord(m, q, v) {}
      SamePt(m, n, q, q);
    }
  }

  lemma AddRootMaps(m: Image, p: nat, mm: Mm)
    requires Good(m) && NewRoot(m, p, mm)
    ensures Good(AddRoot(m, p, mm))
    ensures Abs(AddRoot(m, p, mm)) == Abs(m).(procs := Abs(m).procs[p := Proc(mm.vmas, mm.heap, map[])])
  {
    hide Linked, Leaves, Rooted, KernelSlots, Closed, Template, PtOf;
    AddRootGood(m, p, mm);
    var n := AddRoot(m, p, mm);
    var procs := Abs(m).procs[p := Proc(mm.vmas, mm.heap, map[])];
    forall q | q in n.mms ensures ProcOf(n, q) == procs[q] { AddRootPt(m, p, mm, q); }
    ProcsAre(n, procs);
  }

  /** A process's tables go out of use: exec and exit drop them as they are. */
  ghost function DropTables(m: Image, p: nat): Image {
    m.(mms := m.mms - {p}, node := map k | k in m.node && k.p != p :: m.node[k])
  }

  lemma DropTablesLinked(m: Image, p: nat)
    requires Sizes(m) && Owned(m) && Owned(DropTables(m, p)) && Linked(m)
    ensures Linked(DropTables(m, p))
  {
    hide Entry;
    var n := DropTables(m, p);
    forall k: Key, i: nat | k in n.node && k.level < 3 && UserSlot(k, i)
      ensures n.ram[n.node[k]][i] == if k.Child(i) in n.node then Entry(n.node[k.Child(i)], TABLE_FLAGS) else 0
    {
      assert k.Child(i).p == k.p;
    }
  }

  lemma HalfOfSameMemory(m: Image, n: Image, f: nat)
    requires KernelHalfOf(m, f) && n.kpgd == m.kpgd && n.ram == m.ram
    ensures KernelHalfOf(n, f)
  {
  }

  lemma DropTablesKernel(m: Image, p: nat)
    requires Sizes(m) && Owned(m) && KernelSlots(m) && Owned(DropTables(m, p))
    ensures KernelSlots(DropTables(m, p))
  {
    hide KernelHalfOf, Owned;
    var n := DropTables(m, p);
    forall k | k in n.node && k.level == 0 ensures KernelHalfOf(n, n.node[k]) {
      HalfOfSameMemory(m, n, m.node[k]);
    }
  }

  lemma DropTablesBase(m: Image, p: nat)
    requires Sizes(m) && Owned(m) && Rooted(m) && KernelSlots(m) && Closed(m) && Template(m)
    ensures var n := DropTables(m, p); Sizes(n) && Owned(n) && Rooted(n) && KernelSlots(n) && Closed(n) && Template(n)
  {
    hide KernelSlots, Rooted, Closed;
    DropTablesRooted(m, p);
    DropTablesClosed(m, p);
    DropTablesKernel(m, p);
  }

  lemma DropTablesRooted(m: Image, p: nat)
    requires Rooted(m)
    ensures Rooted(DropTables(m, p))
  {
    var n := DropTables(m, p);
    forall k | k in n.node ensures KeyOk(n, k) { assert KeyOk(m, k); }
  }

  lemma DropTablesClosed(m: Image, p: nat)
    requires Closed(m)
    ensures Closed(DropTables(m, p))
  {
    var n := DropTables(m, p);
    forall k: Key | k in n.node && k.level > 0 ensures k.Parent() in n.node { assert k.Parent().p == k.p; }
  }

  lemma DropTablesGood(m: Image, p: nat)
    requires Good(m)
    ensures Good(DropTables(m, p))
  {
    hide Linked, Rooted, KernelSlots, Closed, Template, Entry, PteOf, PteWord;
    DropTablesBase(m, p);
    DropTablesLinked(m, p);
    var n := DropTables(m, p);
    forall k, i | k in n.node && k.level == 3 && 0 <= i < 512 ensures LeafOk(n, n.ram[n.node[k]][i]) {
      assert LeafOk(m, m.ram[m.node[k]][i]);
    }
  }

  lemma DropTablesMaps(m: Image, p: nat)
    requires Good(m)
    ensures Good(DropTables(m, p)) && Abs(DropTables(m, p)) == Exit(Abs(m), p)
  {
    DropTablesGood(m, p);
    var n := DropTables(m, p);
    forall q | q in n.mms ensures ProcOf(n, q) == ProcOf(m, q) { DropTablesPt(m, p, q); }
    ProcsAre(n, Exit(Abs(m), p).procs);
  }

  lemma DropTablesPt(m: Image, p: nat, q: nat)
    requires Sizes(m) && Owned(m) && Owned(DropTables(m, p)) && q != p
    ensures PtOf(DropTables(m, p), q) == PtOf(m, q)
  {
    var n := DropTables(m, p);
    forall v: nat ensures LeafWord(n, q, v) == LeafWord(m, q, v) {
      assert PteKey(q, v) in n.node <==> PteKey(q, v) in m.node;
    }
    SamePt(m, n, q, q);
  }

  /** brk and fork append to a VMA list. */
  ghost function AppendVma(m: Image, p: nat, a: Vma): Image
    requires p in m.mms
  {
    m.(mms := m.mms[p := m.mms[p].(vmas := m.mms[p].vmas + [a])])
  }

  lemma AppendVmaGood(m: Image, p: nat, a: Vma)
    requires Good(m) && p in m.mms
    ensures Good(AppendVma(m, p, a))
  {
    var n := AppendVma(m, p, a);
    forall k, i | k in n.node && k.level == 3 && 0 <= i < 512 ensures LeafOk(n, n.ram[n.node[k]][i]) {
      assert LeafOk(m, m.ram[m.node[k]][i]);
    }
  }

  lemma AppendVmaMaps(m: Image, p: nat, a: Vma)
    requires Good(m) && p in m.mms
    ensures Good(AppendVma(m, p, a))
    ensures var s := Abs(m);
            Abs(AppendVma(m, p, a)) == s.(procs := s.procs[p := s.procs[p].(vmas := s.procs[p].vmas + [a])])
  {
    hide Linked, Leaves, Rooted, KernelSlots, Closed, Template, PtOf;
    AppendVmaGood(m, p, a);
    var n := AppendVma(m, p, a);
    var s := Abs(m);
    var procs := s.procs[p := s.procs[p].(vmas := s.procs[p].vmas + [a])];
    forall q | q in n.mms ensures ProcOf(n, q) == procs[q] {
      forall v: nat ensures LeafWord(n, q, v) == LeafWord(m, q, v) {}
      SamePt(m, n, q, q);
    }
    ProcsAre(n, procs);
  }
}
