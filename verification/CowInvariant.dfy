/** What every kernel step keeps: reference counts cover the live mappings, and
    a frame that some entry can write has no other mapping. */
module CowInvariant {
  import opened CowMachine

  ghost predicate Shape(s: State) {
    && |s.ref| == FRAMES
    && s.kernel !! s.mem.Keys
    && (forall f :: f in s.kernel ==> f < FRAMES && s.ref[f] >= 1)
    && (forall f :: f in s.mem ==> f < FRAMES && s.ref[f] >= 1)
  }

  ghost predicate VmaOk(a: Vma) {
    && 0 < a.end <= USER_PAGES * PG_SIZE
    && (a.backing.Anonymous? ==> a.rw)
  }

  ghost predicate VmasOk(s: State) {
    forall p, a :: p in s.procs && a in s.procs[p].vmas ==> VmaOk(a)
  }

  /** Entries name data frames and lie inside some VMA; an entry that is or may
      become writable lies inside a writable one. */
  ghost predicate Placed(s: State) {
    forall p, v {:trigger Maps(s, p, v)} :: Maps(s, p, v) ==>
      && At(s, p, v).frame in s.mem
      && SomeTouch(s.procs[p].vmas, v)
      && (At(s, p, v).writable || At(s, p, v).cow ==> SomeRw(s.procs[p].vmas, v))
      && !(At(s, p, v).writable && At(s, p, v).cow)
  }

  /** A frame some entry can write is named by that entry alone. */
  ghost predicate Exclusive(s: State) {
    forall p, v, q, u {:trigger Maps(s, p, v), Maps(s, q, u)} ::
      Maps(s, p, v) && Maps(s, q, u) && At(s, p, v).writable && At(s, p, v).frame == At(s, q, u).frame
      ==> p == q && v == u
  }

  /** References never fall below the live mappings. */
  ghost predicate Counted(s: State) {
    forall f {:trigger Mappers(s, f)} :: f in s.mem ==> f < |s.ref| && |Mappers(s, f)| <= s.ref[f]
  }

  ghost predicate Inv(s: State) {
    Shape(s) && VmasOk(s) && Placed(s) && Exclusive(s) && Counted(s)
  }

  // ---------------------------------------------------------------- frames

  /** A free frame is named by no entry and used by no table or descriptor. */
  lemma FreeMeansUnused(s: State, f: nat)
    requires Inv(s) && IsFree(s, f)
    ensures f !in s.kernel && f !in s.mem && Mappers(s, f) == {}
    ensures forall q, u {:trigger Maps(s, q, u)} :: Maps(s, q, u) ==> At(s, q, u).frame != f
  {
    forall x | x in Mappers(s, f) ensures false {
      assert Maps(s, x.0, x.1);
    }
  }

  /** With one reference left, a mapped frame has exactly one mapping: the
      handler's "just clear COW" branch exposes no shared frame. */
  lemma SoleReference(s: State, p: nat, v: nat)
    requires Inv(s) && Maps(s, p, v) && s.ref[At(s, p, v).frame] <= 1
    ensures Mappers(s, At(s, p, v).frame) == {(p, v)}
    ensures forall q, u {:trigger Maps(s, q, u)} ::
              Maps(s, q, u) && At(s, q, u).frame == At(s, p, v).frame ==> q == p && u == v
  {
    var f := At(s, p, v).frame;
    var m := Mappers(s, f);
    assert (p, v) in m;
    assert m == {(p, v)} + (m - {(p, v)});
    assert |m| <= 1;
    forall q, u | Maps(s, q, u) && At(s, q, u).frame == f ensures q == p && u == v {
      assert (q, u) in m;
    }
  }

  /** A frame that some entry can write has one mapping. */
  lemma WritableIsSole(s: State, p: nat, v: nat)
    requires Inv(s) && Maps(s, p, v) && At(s, p, v).writable
    ensures Mappers(s, At(s, p, v).frame) == {(p, v)}
  {
    var f := At(s, p, v).frame;
    assert (p, v) in Mappers(s, f);
    forall x | x in Mappers(s, f)
      ensures x == (p, v)
    {
      assert Maps(s, x.0, x.1);
    }
  }

  // ---------------------------------------------------------------- steps

  lemma GrowKeepsInv(s: State, fs: set<nat>)
    requires Inv(s) && forall f :: f in fs ==> IsFree(s, f)
    ensures Inv(Grow(s, fs))
  {
    var t := Grow(s, fs);
    forall f | f in fs ensures f !in s.mem && f !in s.kernel { FreeMeansUnused(s, f); }
    assert forall p, v :: Maps(t, p, v) <==> Maps(s, p, v);
    assert forall f :: Mappers(t, f) == Mappers(s, f);
  }

  lemma ReleaseKeepsInv(s: State, f: nat)
    requires Inv(s) && f in s.kernel
    requires s.ref[f] == 1
    ensures Inv(Release(s, f))
  {
    var t := Release(s, f);
    assert forall p, v :: Maps(t, p, v) <==> Maps(s, p, v);
    assert forall g :: Mappers(t, g) == Mappers(s, g);
  }

  /** State t is s with the entry of page v of process p replaced by e. */
  ghost predicate Remapped(s: State, t: State, p: nat, v: nat, e: Pte) {
    p in s.procs && t.procs == s.procs[p := s.procs[p].(pt := s.procs[p].pt[v := e])]
  }

  lemma RemapMappers(s: State, t: State, p: nat, v: nat, e: Pte, f: nat)
    requires Remapped(s, t, p, v, e)
    ensures Mappers(t, f) == (Mappers(s, f) - {(p, v)}) + (if e.frame == f then {(p, v)} else {})
  {
  }

  /** A new entry adds one mapping to its frame. */
  lemma InsertCount(s: State, t: State, p: nat, v: nat, e: Pte, f: nat)
    requires Remapped(s, t, p, v, e) && !Maps(s, p, v)
    ensures |Mappers(t, f)| == |Mappers(s, f)| + if f == e.frame then 1 else 0
  {
    RemapMappers(s, t, p, v, e, f);
    assert (p, v) !in Mappers(s, f);
    assert f != e.frame ==> Mappers(t, f) == Mappers(s, f);
  }

  /** A changed entry moves one mapping from its old frame to its new one. */
  lemma MoveCount(s: State, t: State, p: nat, v: nat, e: Pte, f: nat)
    requires Remapped(s, t, p, v, e) && Maps(s, p, v) && At(s, p, v).frame != e.frame
    ensures |Mappers(t, f)| ==
            |Mappers(s, f)| + (if f == e.frame then 1 else 0) - if f == At(s, p, v).frame then 1 else 0
  {
    RemapMappers(s, t, p, v, e, f);
    MapperOf(s, p, v, f);
    hide Mappers, Remapped, At;
    var ms := Mappers(s, f);
    if (p, v) !in ms { assert ms - {(p, v)} == ms; }
  }

  lemma MapperOf(s: State, p: nat, v: nat, f: nat)
    requires Maps(s, p, v)
    ensures (p, v) in Mappers(s, f) <==> f == At(s, p, v).frame
  {
  }

  lemma RemapEntry(s: State, t: State, p: nat, v: nat, e: Pte, q: nat, u: nat)
    requires Remapped(s, t, p, v, e) && Maps(t, q, u)
    ensures (q, u) == (p, v) ==> At(t, q, u) == e
    ensures (q, u) != (p, v) ==> Maps(s, q, u) && At(t, q, u) == At(s, q, u)
    ensures q in s.procs && t.procs[q].vmas == s.procs[q].vmas
  {
  }

  /** Replacing one entry keeps placement and exclusivity when the new entry is
      placed well and no other entry names its frame. */
  lemma RemapKeeps(s: State, t: State, p: nat, v: nat, e: Pte)
    requires Remapped(s, t, p, v, e) && Placed(s) && Exclusive(s)
    requires s.mem.Keys <= t.mem.Keys && e.frame in t.mem
    requires SomeRw(s.procs[p].vmas, v) || (SomeTouch(s.procs[p].vmas, v) && !e.writable)
    requires !e.cow
    requires forall q, u {:trigger Maps(s, q, u)} :: Maps(s, q, u) && At(s, q, u).frame == e.frame ==> q == p && u == v
    ensures Placed(t) && Exclusive(t)
  {
    forall q, u | Maps(t, q, u)
      ensures At(t, q, u).frame in t.mem && SomeTouch(t.procs[q].vmas, u)
      ensures At(t, q, u).writable || At(t, q, u).cow ==> SomeRw(t.procs[q].vmas, u)
      ensures !(At(t, q, u).writable && At(t, q, u).cow)
    {
      RemapEntry(s, t, p, v, e, q, u);
      if q != p || u != v { assert Maps(s, q, u); }
    }
    forall r, w, q, u | Maps(t, r, w) && Maps(t, q, u) && At(t, r, w).writable && At(t, r, w).frame == At(t, q, u).frame
      ensures r == q && w == u
    {
      RemapEntry(s, t, p, v, e, r, w);
      RemapEntry(s, t, p, v, e, q, u);
      if At(t, r, w).frame != e.frame {
        assert Maps(s, r, w) && Maps(s, q, u);
      }
    }
  }

  lemma VmasKept(s: State, t: State, p: nat, v: nat, e: Pte)
    requires Remapped(s, t, p, v, e) && VmasOk(s)
    ensures VmasOk(t)
  {
  }

  lemma DemandKeepsInv(s: State, p: nat, v: nat, a: Vma, g: nat)
    requires Inv(s) && p in s.procs && v !in s.procs[p].pt && IsFree(s, g)
    requires a in s.procs[p].vmas && a.Touches(v)
    ensures Inv(Demand(s, p, v, a, g))
  {
    var t := Demand(s, p, v, a, g);
    var e := Pte(g, a.rw || a.backing.Anonymous?, false);
    FreeMeansUnused(s, g);
    assert Remapped(s, t, p, v, e);
    var k :| 0 <= k < |s.procs[p].vmas| && s.procs[p].vmas[k] == a;
    assert VmaOk(a);
    RemapKeeps(s, t, p, v, e);
    VmasKept(s, t, p, v, e);
    forall f | f in t.mem ensures |Mappers(t, f)| <= t.ref[f] { InsertCount(s, t, p, v, e, f); }
  }

  lemma SplitKeepsInv(s: State, p: nat, v: nat, g: nat)
    requires Inv(s) && Maps(s, p, v) && At(s, p, v).cow && s.ref[At(s, p, v).frame] > 1 && IsFree(s, g)
    ensures At(s, p, v).frame in s.mem && Inv(Split(s, p, v, g))
  {
    var e := Pte(g, true, false);
    FreeMeansUnused(s, g);
    var t := Split(s, p, v, g);
    assert Remapped(s, t, p, v, e);
    RemapKeeps(s, t, p, v, e);
    VmasKept(s, t, p, v, e);
    assert Shape(t);
    forall h | h in t.mem ensures |Mappers(t, h)| <= t.ref[h] { MoveCount(s, t, p, v, e, h); }
  }

  lemma ClearKeepsInv(s: State, p: nat, v: nat)
    requires Inv(s) && Maps(s, p, v) && At(s, p, v).cow && s.ref[At(s, p, v).frame] <= 1
    ensures Inv(Clear(s, p, v))
  {
    var f := At(s, p, v).frame;
    var e := Pte(f, true, false);
    SoleReference(s, p, v);
    var t := Clear(s, p, v);
    assert Remapped(s, t, p, v, e);
    RemapKeeps(s, t, p, v, e);
    VmasKept(s, t, p, v, e);
    forall h | h in t.mem
      ensures |Mappers(t, h)| <= t.ref[h]
    {
      RemapMappers(s, t, p, v, e, h);
      assert Mappers(t, h) == Mappers(s, h);
    }
  }

  lemma StoreKeepsInv(s: State, p: nat, v: nat, i: nat, w: Word)
    requires Inv(s) && Maps(s, p, v) && i < 512
    ensures At(s, p, v).frame in s.mem && Inv(Store(s, p, v, i, w))
  {
    var t := Store(s, p, v, i, w);
    assert t.mem.Keys == s.mem.Keys;
    assert forall q, u :: Maps(t, q, u) <==> Maps(s, q, u);
    assert forall g :: Mappers(t, g) == Mappers(s, g);
  }

  lemma BrkKeepsInv(s: State, p: nat, newBreak: nat)
    requires Inv(s) && p in s.procs && 0 < newBreak <= HEAP_LIMIT
    ensures Inv(Brk(s, p, newBreak))
  {
    var t := Brk(s, p, newBreak);
    var areas := s.procs[p].vmas;
    forall q, u | Maps(t, q, u)
      ensures Maps(s, q, u) && At(t, q, u) == At(s, q, u)
      ensures SomeTouch(t.procs[q].vmas, u)
      ensures SomeRw(s.procs[q].vmas, u) ==> SomeRw(t.procs[q].vmas, u)
    {
      assert Maps(s, q, u);
      if q == p {
        var k :| 0 <= k < |areas| && areas[k].Touches(u);
        assert t.procs[p].vmas[k] == areas[k];
        if SomeRw(areas, u) {
          var j :| 0 <= j < |areas| && areas[j].Touches(u) && areas[j].rw;
          assert t.procs[p].vmas[j] == areas[j];
        }
      }
    }
    assert forall g :: Mappers(t, g) == Mappers(s, g);
  }

  /** Dropping the entries of one process only lowers the mapping counts. */
  lemma FewerMappers(s: State, t: State, p: nat, f: nat)
    requires forall q :: q in t.procs && q != p ==> q in s.procs && t.procs[q] == s.procs[q]
    requires p in t.procs ==> t.procs[p].pt == map[]
    ensures |Mappers(t, f)| <= |Mappers(s, f)|
  {
    forall x | x in Mappers(t, f) ensures x in Mappers(s, f) { assert x.0 != p; }
    SubsetSize(Mappers(t, f), Mappers(s, f));
  }

  lemma SubsetSize<T>(a: set<T>, b: set<T>)
    requires a <= b
    ensures |a| <= |b|
  {
    assert b == a + (b - a);
  }

  lemma ExecKeepsInv(s: State, p: nat, vmas: seq<Vma>, heap: nat)
    requires Inv(s) && forall a :: a in vmas ==> VmaOk(a)
    ensures Inv(Exec(s, p, vmas, heap))
  {
    var t := Exec(s, p, vmas, heap);
    forall q, u | Maps(t, q, u) ensures Maps(s, q, u) && q != p {}
    forall f | f in t.mem ensures |Mappers(t, f)| <= t.ref[f] { FewerMappers(s, t, p, f); }
  }

  lemma ExitKeepsInv(s: State, p: nat)
    requires Inv(s)
    ensures Inv(Exit(s, p))
  {
    var t := Exit(s, p);
    forall q, u | Maps(t, q, u) ensures Maps(s, q, u) && q != p {}
    forall f | f in t.mem ensures |Mappers(t, f)| <= t.ref[f] { FewerMappers(s, t, p, f); }
  }

  // ---------------------------------------------------------------- fork

  /** The new mappings of frame f that fork creates. */
  ghost function NewMappers(q: Proc, c: nat, f: nat): set<(nat, nat)> {
    set v | v in q.pt && SomeTouch(q.vmas, v) && q.pt[v].frame == f :: (c, v)
  }

  lemma ForkMappers(s: State, p: nat, c: nat, f: nat)
    requires p in s.procs && c !in s.procs
    ensures Mappers(Fork(s, p, c), f) == Mappers(s, f) + NewMappers(s.procs[p], c, f)
    ensures Mappers(s, f) !! NewMappers(s.procs[p], c, f)
  {
    var t := Fork(s, p, c);
    var q := s.procs[p];
    forall x | x in Mappers(t, f)
      ensures x in Mappers(s, f) + NewMappers(q, c, f)
    {
      if x.0 == c {
        assert x == (c, x.1);
      } else if x.0 == p {
        assert t.procs[p].pt == ParentPt(q);
        assert x.1 in s.procs[p].pt && s.procs[p].pt[x.1].frame == f;
      }
    }
    forall x | x in Mappers(s, f) + NewMappers(q, c, f)
      ensures x in Mappers(t, f)
    {
      if x in NewMappers(q, c, f) {
        assert x.1 in t.procs[c].pt && t.procs[c].pt[x.1].frame == f;
      } else if x.0 == p {
        assert x.1 in t.procs[p].pt && t.procs[p].pt[x.1].frame == f;
      } else {
        assert x.0 in t.procs && x.1 in t.procs[x.0].pt;
      }
    }
  }

  /** Dropping the VMA index from the copied pairs. */
  ghost function PagesOf(c: nat, pairs: set<(nat, nat)>): set<(nat, nat)> {
    set x | x in pairs :: (c, x.1)
  }

  lemma {:induction false} ProjectionShrinks(c: nat, pairs: set<(nat, nat)>)
    ensures |PagesOf(c, pairs)| <= |pairs|
    ensures |PagesOf(c, pairs)| == |pairs| <==>
            forall x, y {:trigger x.0, y.0} :: x in pairs && y in pairs && x.1 == y.1 ==> x == y
  {
    if pairs != {} {
      var x :| x in pairs;
      var rest := pairs - {x};
      ProjectionShrinks(c, rest);
      assert pairs == rest + {x};
      assert PagesOf(c, pairs) == PagesOf(c, rest) + {(c, x.1)};
      if (c, x.1) in PagesOf(c, rest) {
        var y :| y in rest && y.1 == x.1;
        assert y != x && y in pairs && x.1 == y.1 && y.0 == y.0 && x.0 == x.0;
      }
    }
  }

  lemma NewMappersAreProjections(q: Proc, c: nat, f: nat)
    ensures NewMappers(q, c, f) == PagesOf(c, Copies(q, f))
  {
    forall x | x in NewMappers(q, c, f)
      ensures x in PagesOf(c, Copies(q, f))
    {
      var k :| 0 <= k < |q.vmas| && q.vmas[k].Touches(x.1);
      assert (k, x.1) in Copies(q, f);
    }
  }

  /** fork adds to each count at least as many references as mappings, and
      exactly as many if and only if no copied page lies in two VMAs. */
  lemma ForkReferences(s: State, p: nat, c: nat, f: nat)
    requires p in s.procs && c !in s.procs && f < |s.ref|
    ensures |Mappers(Fork(s, p, c), f)| - |Mappers(s, f)| <= Fork(s, p, c).ref[f] - s.ref[f]
    ensures |Mappers(Fork(s, p, c), f)| - |Mappers(s, f)| == Fork(s, p, c).ref[f] - s.ref[f] <==>
            forall x, y {:trigger x.0, y.0} ::
              x in Copies(s.procs[p], f) && y in Copies(s.procs[p], f) && x.1 == y.1 ==> x == y
  {
    var q := s.procs[p];
    ForkMappers(s, p, c, f);
    NewMappersAreProjections(q, c, f);
    ProjectionShrinks(c, Copies(q, f));
    assert |Mappers(Fork(s, p, c), f)| == |Mappers(s, f)| + |NewMappers(q, c, f)|;
  }

  lemma ForkEntries(s: State, p: nat, c: nat, r: nat, v: nat)
    requires Inv(s) && p in s.procs && c !in s.procs && Maps(Fork(s, p, c), r, v)
    ensures r == c || r == p ==> Maps(s, p, v) && At(Fork(s, p, c), r, v).frame == At(s, p, v).frame
                                 && !At(Fork(s, p, c), r, v).writable
    ensures r != c && r != p ==> Maps(s, r, v) && At(Fork(s, p, c), r, v) == At(s, r, v)
  {
    if r == p {
      assert Maps(s, p, v);
    }
  }

  /** After fork the child translates exactly the pages the parent does, to the
      same frames, and neither can write one; where a VMA of the page is writable
      the parent's entry is copy-on-write, and the child's if the last such is. */
  lemma ForkTranslations(s: State, p: nat, c: nat, v: nat)
    requires Inv(s) && p in s.procs && c !in s.procs
    ensures var t := Fork(s, p, c);
            && (Maps(t, c, v) <==> Maps(s, p, v)) && (Maps(t, p, v) <==> Maps(s, p, v))
            && (Maps(s, p, v) ==>
                  && At(t, c, v).frame == At(t, p, v).frame == At(s, p, v).frame
                  && !At(t, c, v).writable && !At(t, p, v).writable
                  && (SomeRw(s.procs[p].vmas, v) ==> At(t, p, v).cow)
                  && (At(t, c, v).cow <==> LastRw(s.procs[p].vmas, v)))
  {
    if Maps(s, p, v) { ForkEntries(s, p, c, p, v); }
  }

  lemma {:induction false} LastRwIsSomeRw(vmas: seq<Vma>, v: nat)
    requires LastRw(vmas, v)
    ensures SomeRw(vmas, v)
  {
    var n := |vmas| - 1;
    if !vmas[n].Touches(v) {
      LastRwIsSomeRw(vmas[..n], v);
      var k :| 0 <= k < n && vmas[..n][k].Touches(v) && vmas[..n][k].rw;
      assert vmas[k].Touches(v) && vmas[k].rw;
    }
  }

  lemma ForkKeepsPlaced(s: State, p: nat, c: nat)
    requires Inv(s) && p in s.procs && c !in s.procs
    ensures Placed(Fork(s, p, c))
  {
    var t := Fork(s, p, c);
    forall r, v | Maps(t, r, v)
      ensures At(t, r, v).frame in t.mem && SomeTouch(t.procs[r].vmas, v)
      ensures At(t, r, v).writable || At(t, r, v).cow ==> SomeRw(t.procs[r].vmas, v)
      ensures !(At(t, r, v).writable && At(t, r, v).cow)
    {
      ForkEntries(s, p, c, r, v);
      if r == c {
        assert Maps(s, p, v);
        if At(t, c, v).cow { LastRwIsSomeRw(s.procs[p].vmas, v); }
      } else if r == p {
        assert Maps(s, p, v);
      } else {
        assert Maps(s, r, v);
      }
    }
  }

  lemma ForkKeepsExclusive(s: State, p: nat, c: nat)
    requires Inv(s) && p in s.procs && c !in s.procs
    ensures Exclusive(Fork(s, p, c))
  {
    var t := Fork(s, p, c);
    forall r, v, q, u | Maps(t, r, v) && Maps(t, q, u) && At(t, r, v).writable && At(t, r, v).frame == At(t, q, u).frame
      ensures r == q && v == u
    {
      ForkEntries(s, p, c, r, v);
      ForkEntries(s, p, c, q, u);
      assert r != c && r != p;
      assert Maps(s, r, v);
      if q != c && q != p { assert Maps(s, q, u); }
    }
  }

  lemma ForkKeepsInv(s: State, p: nat, c: nat)
    requires Inv(s) && p in s.procs && c !in s.procs
    ensures Inv(Fork(s, p, c))
  {
    var t := Fork(s, p, c);
    ForkKeepsPlaced(s, p, c);
    ForkKeepsExclusive(s, p, c);
    forall f | f in t.mem ensures |Mappers(t, f)| <= t.ref[f] { ForkReferences(s, p, c, f); }
  }
}
