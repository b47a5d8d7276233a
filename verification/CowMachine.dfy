/** The virtual-memory state of the kernel, one level above the page-table
    pages: every process has a partial map from page numbers to entries, frames
    carry reference counts, and each kernel operation is one state update.
    Module Paging shows that the code over real table pages performs exactly
    these updates; module PrivateMemory shows what they mean to user programs. */
module CowMachine {
  import opened Basics
  import opened Bytes

  const PG_SIZE: nat := 4096
  const WORDS: nat := 512
  const FRAMES: nat := 32768        // PHYMEM_SIZE >> PG_BITS
  const FREE_START: nat := 671      // the range get_free_page searches
  const FREE_END: nat := 32766
  const USER_PAGES: nat := 0x8_0000_0000   // 0x800000000000 >> 12
  const HEAP_LIMIT: nat := 0x7fff_fff0_0000

  type Word = w: nat | w < TWO64
  type Page = p: seq<Word> | |p| == 512 witness seq(512, _ => 0)

  function ZeroPage(): Page { seq(512, _ => 0) }

  /** What backs a VMA: nothing (stack and heap), or memory holding a file.
      The loader reads that memory at any offset, also before and after the
      file, so it is a function of the offset. */
  datatype Backing = Anonymous | File(byteAt: int -> Byte)

  datatype Vma = Vma(start: nat, end: nat, rw: bool, backing: Backing, pgoff: nat, filesz: nat)
  {
    /** The pages a loop over the VMA visits: start >> 12 up to (end - 1) >> 12. */
    predicate Touches(v: nat) {
      start / PG_SIZE <= v <= (end - 1) / PG_SIZE
    }

    predicate Contains(addr: nat) {
      start <= addr < end
    }
  }

  datatype Pte = Pte(frame: nat, writable: bool, cow: bool)

  datatype Proc = Proc(vmas: seq<Vma>, heap: nat, pt: map<nat, Pte>)

  /** `mem` holds the frames ever handed out for user data, `kernel` the frames
      handed out for tables, stacks and descriptors. */
  datatype State = State(procs: map<nat, Proc>, ref: seq<int>, mem: map<nat, Page>, kernel: set<nat>)

  // ---------------------------------------------------------------- look-up

  ghost predicate Maps(s: State, p: nat, v: nat) {
    p in s.procs && v in s.procs[p].pt
  }

  ghost function At(s: State, p: nat, v: nat): Pte
    requires Maps(s, p, v)
  {
    s.procs[p].pt[v]
  }

  /** Every (process, page) pair whose entry names frame f. */
  ghost function Mappers(s: State, f: nat): set<(nat, nat)> {
    set p, v | p in s.procs && v in s.procs[p].pt && s.procs[p].pt[v].frame == f :: (p, v)
  }

  predicate IsFree(s: State, f: nat) {
    FREE_START <= f < FREE_END && f < |s.ref| && s.ref[f] == 0
  }

  /** search_vma: the first VMA of the list that contains the address. */
  function SearchVma(vmas: seq<Vma>, addr: nat): (r: Option<Vma>)
    ensures r.Some? ==> r.value in vmas && r.value.Contains(addr)
    ensures r.None? ==> forall a :: a in vmas ==> !a.Contains(addr)
  {
    if vmas == [] then None
    else if vmas[0].Contains(addr) then Some(vmas[0])
    else SearchVma(vmas[1..], addr)
  }

  ghost predicate SomeTouch(vmas: seq<Vma>, v: nat) {
    exists k :: 0 <= k < |vmas| && vmas[k].Touches(v)
  }

  ghost predicate SomeRw(vmas: seq<Vma>, v: nat) {
    exists k :: 0 <= k < |vmas| && vmas[k].Touches(v) && vmas[k].rw
  }

  /** The VMA that decides a child's entry in fork: the last one touching v. */
  predicate LastRw(vmas: seq<Vma>, v: nat) {
    |vmas| > 0 && var a := vmas[|vmas| - 1];
    if a.Touches(v) then a.rw else LastRw(vmas[..|vmas| - 1], v)
  }

  // ---------------------------------------------------------------- page contents

  function LittleEndian(b: seq<Byte>): Word
    requires |b| == 8
  {
    assert Pow256(8) == TWO64;
    FromBytes(b)
  }

  /** What map_a_page leaves in a new frame for page v of a VMA: zeroes, or a
      whole page read from the backing memory at vm_pgoff + (page start - vm_start). */
  function Fill(a: Vma, v: nat): Page {
    if a.backing.Anonymous? then ZeroPage()
    else
      var off := a.pgoff + v * PG_SIZE - a.start;
      seq(512, i requires 0 <= i < 512 =>
        LittleEndian(seq(8, j requires 0 <= j < 8 => a.backing.byteAt(off + 8 * i + j))))
  }

  // ---------------------------------------------------------------- updates

  /** The kernel takes the free frames `fs` for its own use. */
  ghost function Grow(s: State, fs: set<nat>): State {
    s.(kernel := s.kernel + fs, ref := seq(|s.ref|, f requires 0 <= f < |s.ref| => if f in fs then 1 else s.ref[f]))
  }

  /** free_page on a frame the kernel used for itself. */
  ghost function Release(s: State, f: nat): State
    requires f in s.kernel && f < |s.ref|
  {
    s.(kernel := s.kernel - {f}, ref := s.ref[f := s.ref[f] - 1])
  }

  /** map_a_page for an unmapped page: frame g is taken, filled and mapped. */
  function Demand(s: State, p: nat, v: nat, a: Vma, g: nat): State
    requires p in s.procs && g < |s.ref|
  {
    var q := s.procs[p];
    s.(procs := s.procs[p := q.(pt := q.pt[v := Pte(g, a.rw || a.backing.Anonymous?, false)])],
       ref := s.ref[g := 1],
       mem := s.mem[g := Fill(a, v)])
  }

  /** The copy-on-write split: the page moves to a private copy in frame g. */
  function Split(s: State, p: nat, v: nat, g: nat): State
    requires p in s.procs && v in s.procs[p].pt && g < |s.ref|
    requires s.procs[p].pt[v].frame < |s.ref| && s.procs[p].pt[v].frame in s.mem
  {
    var q := s.procs[p];
    var f := q.pt[v].frame;
    s.(procs := s.procs[p := q.(pt := q.pt[v := Pte(g, true, false)])],
       ref := s.ref[g := 1][f := s.ref[g := 1][f] - 1],
       mem := s.mem[g := s.mem[f]])
  }

  /** The sole-owner upgrade: the entry becomes writable in place. */
  function Clear(s: State, p: nat, v: nat): State
    requires p in s.procs && v in s.procs[p].pt
  {
    var q := s.procs[p];
    s.(procs := s.procs[p := q.(pt := q.pt[v := Pte(q.pt[v].frame, true, false)])])
  }

  /** A user-mode store that the MMU lets through. */
  function Store(s: State, p: nat, v: nat, i: nat, w: Word): State
    requires p in s.procs && v in s.procs[p].pt && s.procs[p].pt[v].frame in s.mem && i < 512
  {
    var f := s.procs[p].pt[v].frame;
    s.(mem := s.mem[f := s.mem[f][i := w]])
  }

  /** The (VMA index, page) pairs for which fork copies an entry naming f. */
  ghost function Copies(q: Proc, f: nat): set<(nat, nat)> {
    set k: nat, v | 0 <= k < |q.vmas| && v in q.pt && q.pt[v].frame == f && q.vmas[k].Touches(v) :: (k, v)
  }

  ghost function ParentPt(q: Proc): map<nat, Pte> {
    map v | v in q.pt :: if SomeRw(q.vmas, v) then Pte(q.pt[v].frame, false, true) else q.pt[v]
  }

  ghost function ChildPt(q: Proc): map<nat, Pte> {
    map v | v in q.pt && SomeTouch(q.vmas, v) :: Pte(q.pt[v].frame, false, LastRw(q.vmas, v))
  }

  /** fork, in closed form. */
  ghost function Fork(s: State, p: nat, c: nat): State
    requires p in s.procs
  {
    var q := s.procs[p];
    s.(procs := s.procs[p := q.(pt := ParentPt(q))][c := q.(pt := ChildPt(q))],
       ref := seq(|s.ref|, f requires 0 <= f < |s.ref| => s.ref[f] + |Copies(q, f)|))
  }

  /** brk for a new break above the heap start: the kernel never records the
      break, so each such call appends a VMA from the heap start. */
  function Brk(s: State, p: nat, newBreak: nat): State
    requires p in s.procs
  {
    var q := s.procs[p];
    s.(procs := s.procs[p := q.(vmas := q.vmas + [Vma(q.heap, newBreak, true, Anonymous, 0, 0)])])
  }

  /** exec: a fresh address space; nothing of the old one is given back. */
  function Exec(s: State, p: nat, vmas: seq<Vma>, heap: nat): State
  {
    s.(procs := s.procs[p := Proc(vmas, heap, map[])])
  }

  /** exit: the process stops running; nothing is given back either. */
  function Exit(s: State, p: nat): State {
    s.(procs := s.procs - {p})
  }

  // ---------------------------------------------------------------- the MMU and the fault handler

  datatype Check = Granted | NotPresent | Violation

  /** A user-mode access to page v as the MMU decides it. */
  function Mmu(s: State, p: nat, v: nat, write: bool): Check
    requires p in s.procs
  {
    if v !in s.procs[p].pt then NotPresent
    else if write && !s.procs[p].pt[v].writable then Violation
    else Granted
  }

  datatype Action = MapPage(vma: Vma) | SplitPage | ClearCow | Kill

  /** What page_fault_handler does for a user-mode fault at `addr`. */
  function Handle(s: State, p: nat, addr: nat, write: bool): Action
    requires p in s.procs
    requires forall v :: v in s.procs[p].pt ==> s.procs[p].pt[v].frame < |s.ref|
  {
    var v := addr / PG_SIZE;
    if v !in s.procs[p].pt then
      match SearchVma(s.procs[p].vmas, addr)
      case Some(a) => MapPage(a)
      case None => Kill
    else if write && s.procs[p].pt[v].cow then
      if s.ref[s.procs[p].pt[v].frame] > 1 then SplitPage else ClearCow
    else Kill
  }
}
