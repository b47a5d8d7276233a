/** copy_mm and copy_vma_deep as they run: VMA after VMA, page after page. The
    state after any number of iterations has a closed form, and the last one is
    CowMachine.Fork, whatever the VMAs overlap. */
module ForkLoop {
  import opened CowMachine

  function FirstPage(a: Vma): int { a.start / PG_SIZE }
  function EndPage(a: Vma): int { (a.end - 1) / PG_SIZE + 1 }

  /** One iteration of copy_vma_deep: page v of VMA a, parent p, child c. */
  function CopyPte(s: State, p: nat, c: nat, a: Vma, v: nat): State
    requires p in s.procs && c in s.procs && p != c
    requires v in s.procs[p].pt ==> s.procs[p].pt[v].frame < |s.ref|
  {
    if v !in s.procs[p].pt then s
    else
      var f := s.procs[p].pt[v].frame;
      var mine := if a.rw then s.procs[p].pt[v := Pte(f, false, true)] else s.procs[p].pt;
      var theirs := s.procs[c].pt[v := Pte(f, false, a.rw)];
      s.(procs := s.procs[p := s.procs[p].(pt := mine)][c := s.procs[c].(pt := theirs)],
         ref := s.ref[f := s.ref[f] + 1])
  }

  // ---------------------------------------------------------------- what has been done

  /** Page v has been visited as part of VMA k, whose pages below i are done. */
  predicate InPart(q: Proc, k: nat, i: int, v: nat) {
    k < |q.vmas| && q.vmas[k].Touches(v) && v < i
  }

  ghost predicate Done(q: Proc, k: nat, i: int, v: nat)
    requires k <= |q.vmas|
  {
    SomeTouch(q.vmas[..k], v) || InPart(q, k, i, v)
  }

  ghost predicate RwDone(q: Proc, k: nat, i: int, v: nat)
    requires k <= |q.vmas|
  {
    SomeRw(q.vmas[..k], v) || (InPart(q, k, i, v) && q.vmas[k].rw)
  }

  predicate LastDone(q: Proc, k: nat, i: int, v: nat)
    requires k <= |q.vmas|
  {
    if InPart(q, k, i, v) then q.vmas[k].rw else LastRw(q.vmas[..k], v)
  }

  ghost function CopiesDone(q: Proc, k: nat, i: int, f: nat): set<(nat, nat)>
    requires k <= |q.vmas|
  {
    set j: nat, v | 0 <= j <= k && v in q.pt && q.pt[v].frame == f
                    && (if j < k then q.vmas[j].Touches(v) else InPart(q, k, i, v)) :: (j, v)
  }

  ghost function ParentPart(q: Proc, k: nat, i: int): map<nat, Pte>
    requires k <= |q.vmas|
  {
    map v | v in q.pt :: if RwDone(q, k, i, v) then Pte(q.pt[v].frame, false, true) else q.pt[v]
  }

  ghost function ChildPart(q: Proc, k: nat, i: int): map<nat, Pte>
    requires k <= |q.vmas|
  {
    map v | v in q.pt && Done(q, k, i, v) :: Pte(q.pt[v].frame, false, LastDone(q, k, i, v))
  }

  /** The state of the loops after k whole VMAs and the pages below i of VMA k. */
  ghost function PartialFork(s: State, p: nat, c: nat, k: nat, i: int): State
    requires p in s.procs && k <= |s.procs[p].vmas|
  {
    var q := s.procs[p];
    s.(procs := s.procs[p := q.(pt := ParentPart(q, k, i))][c := Proc(q.vmas[..k], q.heap, ChildPart(q, k, i))],
       ref := seq(|s.ref|, f requires 0 <= f < |s.ref| => s.ref[f] + |CopiesDone(q, k, i, f)|))
  }

  // ---------------------------------------------------------------- one page

  lemma PageParts(q: Proc, k: nat, i: nat, v: nat)
    requires k < |q.vmas| && q.vmas[k].Touches(i)
    ensures v != i ==> Done(q, k, i + 1, v) == Done(q, k, i, v) && RwDone(q, k, i + 1, v) == RwDone(q, k, i, v)
                       && LastDone(q, k, i + 1, v) == LastDone(q, k, i, v)
    ensures Done(q, k, i + 1, i) && LastDone(q, k, i + 1, i) == q.vmas[k].rw
    ensures RwDone(q, k, i + 1, i) == (RwDone(q, k, i, i) || q.vmas[k].rw)
  {
  }

  lemma PageCopies(q: Proc, k: nat, i: nat, f: nat)
    requires k < |q.vmas| && q.vmas[k].Touches(i)
    ensures |CopiesDone(q, k, i + 1, f)| ==
            |CopiesDone(q, k, i, f)| + (if i in q.pt && q.pt[i].frame == f then 1 else 0)
  {
    var a, b := CopiesDone(q, k, i, f), CopiesDone(q, k, i + 1, f);
    if i in q.pt && q.pt[i].frame == f {
      assert (k, i) in b && (k, i) !in a;
      forall x | x in b ensures x in a + {(k, i)} {}
      assert b == a + {(k, i)};
    } else {
      forall x | x in b ensures x in a {
        if x.0 == k && x.1 == i { assert false; }
      }
      assert b == a;
    }
  }

  lemma PageEntries(q: Proc, k: nat, i: nat)
    requires k < |q.vmas| && q.vmas[k].Touches(i) && i in q.pt
    ensures ParentPart(q, k, i + 1) ==
            if q.vmas[k].rw then ParentPart(q, k, i)[i := Pte(q.pt[i].frame, false, true)] else ParentPart(q, k, i)
    ensures ChildPart(q, k, i + 1) == ChildPart(q, k, i)[i := Pte(q.pt[i].frame, false, q.vmas[k].rw)]
  {
    hide SomeTouch, SomeRw, LastRw;
    forall v: nat ensures v != i ==>
      Done(q, k, i + 1, v) == Done(q, k, i, v) && RwDone(q, k, i + 1, v) == RwDone(q, k, i, v)
                                     && LastDone(q, k, i + 1, v) == LastDone(q, k, i, v)
    {
      PageParts(q, k, i, v);
    }
    PageParts(q, k, i, i);
  }

  lemma PageAbsent(q: Proc, k: nat, i: nat)
    requires k < |q.vmas| && q.vmas[k].Touches(i) && i !in q.pt
    ensures ParentPart(q, k, i + 1) == ParentPart(q, k, i) && ChildPart(q, k, i + 1) == ChildPart(q, k, i)
  {
    hide SomeTouch, SomeRw, LastRw;
    forall v | v in q.pt
      ensures Done(q, k, i + 1, v) == Done(q, k, i, v) && RwDone(q, k, i + 1, v) == RwDone(q, k, i, v)
                                 && LastDone(q, k, i + 1, v) == LastDone(q, k, i, v)
    {
      PageParts(q, k, i, v);
    }
  }

  /** One iteration moves the closed form on by one page. */
  lemma CopyOnePage(s: State, p: nat, c: nat, k: nat, i: nat)
    requires p in s.procs && p != c && k < |s.procs[p].vmas| && s.procs[p].vmas[k].Touches(i)
    requires i in s.procs[p].pt ==> s.procs[p].pt[i].frame < |s.ref|
    ensures CopyPte(PartialFork(s, p, c, k, i), p, c, s.procs[p].vmas[k], i) == PartialFork(s, p, c, k, i + 1)
  {
    var q := s.procs[p];
    var t, u := PartialFork(s, p, c, k, i), PartialFork(s, p, c, k, i + 1);
    var r := CopyPte(t, p, c, q.vmas[k], i);
    if i in q.pt { PageEntries(q, k, i); } else { PageAbsent(q, k, i); }
    hide Done, RwDone, LastDone, CopiesDone;
    assert r.procs == u.procs;
    forall f | 0 <= f < |s.ref| ensures r.ref[f] == u.ref[f] { PageCopies(q, k, i, f); }
    assert r.ref == u.ref;
  }

  // ---------------------------------------------------------------- one VMA

  lemma PrefixTouch(vmas: seq<Vma>, k: nat, v: nat)
    requires k < |vmas|
    ensures SomeTouch(vmas[..k + 1], v) <==> SomeTouch(vmas[..k], v) || vmas[k].Touches(v)
    ensures SomeRw(vmas[..k + 1], v) <==> SomeRw(vmas[..k], v) || (vmas[k].Touches(v) && vmas[k].rw)
    ensures LastRw(vmas[..k + 1], v) == if vmas[k].Touches(v) then vmas[k].rw else LastRw(vmas[..k], v)
  {
    var a, b := vmas[..k], vmas[..k + 1];
    assert b[k] == vmas[k] && b[..k] == a;
    forall j | 0 <= j < k && a[j].Touches(v) ensures SomeTouch(b, v) && (a[j].rw ==> SomeRw(b, v)) {
      assert b[j] == a[j];
    }
    forall j | 0 <= j < |b| && b[j].Touches(v)
      ensures SomeTouch(a, v) || vmas[k].Touches(v)
      ensures b[j].rw ==> SomeRw(a, v) || (vmas[k].Touches(v) && vmas[k].rw)
    {
      if j < k { assert a[j] == b[j]; }
    }
    if vmas[k].Touches(v) {
      assert b[k].Touches(v);
    }
  }

  /** No page of VMA k is in the part of it before its first page. */
  lemma NothingYet(q: Proc, k: nat, i: int, v: nat)
    requires k < |q.vmas| ==> i <= FirstPage(q.vmas[k])
    ensures !InPart(q, k, i, v)
  {
  }

  lemma VmaEntries(q: Proc, k: nat, i: int, j: int)
    requires k < |q.vmas| && EndPage(q.vmas[k]) <= i && (k + 1 < |q.vmas| ==> j <= FirstPage(q.vmas[k + 1]))
    ensures ParentPart(q, k, i) == ParentPart(q, k + 1, j) && ChildPart(q, k, i) == ChildPart(q, k + 1, j)
  {
    hide SomeTouch, SomeRw, LastRw;
    forall v: nat
      ensures Done(q, k, i, v) == Done(q, k + 1, j, v) && RwDone(q, k, i, v) == RwDone(q, k + 1, j, v)
      ensures LastDone(q, k, i, v) == LastDone(q, k + 1, j, v)
    {
      PrefixTouch(q.vmas, k, v);
      NothingYet(q, k + 1, j, v);
    }
  }

  /** With all pages of VMA k done and its copy linked into the child, the next
      VMA starts from the closed form for k + 1. */
  lemma NextVma(s: State, p: nat, c: nat, k: nat, i: int, j: int)
    requires p in s.procs && p != c && k < |s.procs[p].vmas| && EndPage(s.procs[p].vmas[k]) <= i
    requires k + 1 < |s.procs[p].vmas| ==> j <= FirstPage(s.procs[p].vmas[k + 1])
    ensures var t := PartialFork(s, p, c, k, i);
            t.(procs := t.procs[c := t.procs[c].(vmas := t.procs[c].vmas + [s.procs[p].vmas[k]])])
            == PartialFork(s, p, c, k + 1, j)
  {
    hide ParentPart, ChildPart, CopiesDone;
    var q := s.procs[p];
    var t, u := PartialFork(s, p, c, k, i), PartialFork(s, p, c, k + 1, j);
    assert q.vmas[..k] + [q.vmas[k]] == q.vmas[..k + 1];
    VmaEntries(q, k, i, j);
    forall f | 0 <= f < |s.ref| ensures t.ref[f] == u.ref[f] { VmaCopies(q, k, i, j, f); }
    assert t.ref == u.ref;
  }

  lemma VmaCopies(q: Proc, k: nat, i: int, j: int, f: nat)
    requires k < |q.vmas| && EndPage(q.vmas[k]) <= i && (k + 1 < |q.vmas| ==> j <= FirstPage(q.vmas[k + 1]))
    ensures CopiesDone(q, k, i, f) == CopiesDone(q, k + 1, j, f)
  {
    var a, b := CopiesDone(q, k, i, f), CopiesDone(q, k + 1, j, f);
    forall x | x in b ensures x in a { NothingYet(q, k + 1, j, x.1); }
    forall x | x in a ensures x in b {}
  }

  // ---------------------------------------------------------------- start and end

  /** Before the first VMA: a child with no VMA and no entry. */
  lemma ForkStarts(s: State, p: nat, c: nat, i: int)
    requires p in s.procs && p != c && (|s.procs[p].vmas| > 0 ==> i <= FirstPage(s.procs[p].vmas[0]))
    ensures PartialFork(s, p, c, 0, i) == s.(procs := s.procs[c := Proc([], s.procs[p].heap, map[])])
  {
    var q := s.procs[p];
    var t := PartialFork(s, p, c, 0, i);
    forall v: nat ensures !Done(q, 0, i, v) && !RwDone(q, 0, i, v) { NothingYet(q, 0, i, v); }
    assert t.procs[p].pt == q.pt;
    assert t.procs[c].pt == map[];
    forall f | 0 <= f < |s.ref| ensures t.ref[f] == s.ref[f] {
      forall x | x in CopiesDone(q, 0, i, f) ensures false { NothingYet(q, 0, i, x.1); }
    }
    assert t.ref == s.ref;
  }

  /** After the last VMA: the closed form of fork, for every VMA list. */
  lemma ForkEnds(s: State, p: nat, c: nat, i: int)
    requires p in s.procs && p != c
    ensures PartialFork(s, p, c, |s.procs[p].vmas|, i) == Fork(s, p, c)
  {
    var q := s.procs[p];
    var n := |q.vmas|;
    var t, u := PartialFork(s, p, c, n, i), Fork(s, p, c);
    assert q.vmas[..n] == q.vmas;
    assert t.procs[p].pt == u.procs[p].pt;
    assert t.procs[c].pt == u.procs[c].pt;
    forall f | 0 <= f < |s.ref| ensures t.ref[f] == u.ref[f] {
      assert CopiesDone(q, n, i, f) == Copies(q, f);
    }
    assert t.ref == u.ref;
  }

  /** Frames the kernel takes in between do not disturb the copying. */
  lemma CopyCommutes(s: State, p: nat, c: nat, a: Vma, v: nat, fs: set<nat>)
    requires p in s.procs && c in s.procs && p != c
    requires v in s.procs[p].pt ==> s.procs[p].pt[v].frame < |s.ref| && s.procs[p].pt[v].frame !in fs
    ensures CopyPte(Grow(s, fs), p, c, a, v) == Grow(CopyPte(s, p, c, a, v), fs)
  {
    var t, u := CopyPte(Grow(s, fs), p, c, a, v), Grow(CopyPte(s, p, c, a, v), fs);
    assert t.ref == u.ref;
  }
}
