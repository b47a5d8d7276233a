/** The self-referencing page-directory slot 0x1fe. Addresses and entries are
    64-bit machine words; physical memory maps a page frame and the index of a
    word in it to that word. The walk is the 4-level walk of the Intel SDM, volume
    3A, section 4.5: bits 47-39, 38-30, 29-21 and 20-12 index the four tables. */
module SelfReference {

  const SELF_REF_INDEX: bv64 := 0x1fe
  const PGD_MASK: bv64 := 0xffff_ff7f_bfdf_e000
  const PUD_MASK: bv64 := 0xffff_ff7f_bfc0_0000
  const PMD_MASK: bv64 := 0xffff_ff7f_8000_0000
  const PTE_MASK: bv64 := 0xffff_ff00_0000_0000
  const FRAME_MASK: bv64 := 0x000f_ffff_ffff_f000
  const WORD_MASK: bv64 := 0xffff_ffff_ffff_fff8   // ~0x7

  type Ram = (bv64, bv64) -> bv64

  /** A byte of physical memory: the frame's address and the offset in it. */
  datatype Place = Place(frame: bv64, offset: bv64)

  // ---------------------------------------------------------------- the hardware walk

  /** The table or page frame that entry `i` of table `t` points to. */
  function Next(ram: Ram, t: bv64, i: bv64): bv64 { ram(t, i) & FRAME_MASK }

  function PgdField(addr: bv64): bv64 { (addr >> 39) & 0x1ff }
  function PudField(addr: bv64): bv64 { (addr >> 30) & 0x1ff }
  function PmdField(addr: bv64): bv64 { (addr >> 21) & 0x1ff }
  function PteField(addr: bv64): bv64 { (addr >> 12) & 0x1ff }

  function PudTable(ram: Ram, pgd: bv64, addr: bv64): bv64 { Next(ram, pgd, PgdField(addr)) }
  function PmdTable(ram: Ram, pgd: bv64, addr: bv64): bv64 { Next(ram, PudTable(ram, pgd, addr), PudField(addr)) }
  function PteTable(ram: Ram, pgd: bv64, addr: bv64): bv64 { Next(ram, PmdTable(ram, pgd, addr), PmdField(addr)) }

  /** Where an ordinary walk of `addr` reads its entry of each level. */
  function PgdSlot(pgd: bv64, addr: bv64): Place { Place(pgd, PgdField(addr) << 3) }
  function PudSlot(ram: Ram, pgd: bv64, addr: bv64): Place { Place(PudTable(ram, pgd, addr), PudField(addr) << 3) }
  function PmdSlot(ram: Ram, pgd: bv64, addr: bv64): Place { Place(PmdTable(ram, pgd, addr), PmdField(addr) << 3) }
  function PteSlot(ram: Ram, pgd: bv64, addr: bv64): Place { Place(PteTable(ram, pgd, addr), PteField(addr) << 3) }

  /** The place the MMU reaches for `addr`. */
  function Translate(ram: Ram, pgd: bv64, addr: bv64): Place {
    Place(Next(ram, PteTable(ram, pgd, addr), PteField(addr)), addr & 0xfff)
  }

  // ---------------------------------------------------------------- the macros

  function PgdTrick(addr: bv64): bv64 { (((addr >> 36) & ((1 << 12) - 1)) | PGD_MASK) & WORD_MASK }
  function PudTrick(addr: bv64): bv64 { (((addr >> 27) & ((1 << 21) - 1)) | PUD_MASK) & WORD_MASK }
  function PmdTrick(addr: bv64): bv64 { (((addr >> 18) & ((1 << 30) - 1)) | PMD_MASK) & WORD_MASK }
  function PteTrick(addr: bv64): bv64 { (((addr >> 9) & ((1 << 39) - 1)) | PTE_MASK) & WORD_MASK }

  function PgdOff(pfn: bv64): bv64 { (pfn << 28) >> 55 }
  function PudOff(pfn: bv64): bv64 { (pfn << 37) >> 55 }
  function PmdOff(pfn: bv64): bv64 { (pfn << 46) >> 55 }
  function PteOff(pfn: bv64): bv64 { (pfn << 55) >> 55 }

  /** alloc_pgd: slot 0x1fe of a directory holds the directory's own frame. */
  ghost predicate SelfMapped(ram: Ram, pgd: bv64) {
    ram(pgd, SELF_REF_INDEX) & FRAME_MASK == pgd
  }

  lemma AllocPgdSelfMaps(ram: Ram, pgd: bv64)
    requires pgd & FRAME_MASK == pgd
    requires ram(pgd, SELF_REF_INDEX) == pgd | 1 | 2
    ensures SelfMapped(ram, pgd)
  {
    assert (pgd | 1 | 2) & FRAME_MASK == pgd & FRAME_MASK;
  }

  // ---------------------------------------------------------------- index facts

  /** The macros on a page number cut out the fields the hardware uses. */
  lemma OffsetsAreFields(addr: bv64)
    ensures PgdOff(addr >> 12) == PgdField(addr)
    ensures PudOff(addr >> 12) == PudField(addr)
    ensures PmdOff(addr >> 12) == PmdField(addr)
    ensures PteOff(addr >> 12) == PteField(addr)
  {
  }

  /** The five fields determine a 48-bit address. */
  lemma FieldsDetermineAddress(a: bv64, b: bv64)
    requires a >> 48 == 0 && b >> 48 == 0
    requires PgdOff(a >> 12) == PgdOff(b >> 12) && PudOff(a >> 12) == PudOff(b >> 12)
    requires PmdOff(a >> 12) == PmdOff(b >> 12) && PteOff(a >> 12) == PteOff(b >> 12)
    requires a & 0xfff == b & 0xfff
    ensures a == b
  {
  }

  lemma PteTrickFields(addr: bv64)
    ensures var t := PteTrick(addr);
            && PgdField(t) == SELF_REF_INDEX && PudField(t) == PgdField(addr)
            && PmdField(t) == PudField(addr) && PteField(t) == PmdField(addr)
            && t & 0xfff == PteField(addr) << 3 && t >> 47 == 0x1_ffff
  {
  }

  lemma PmdTrickFields(addr: bv64)
    ensures var t := PmdTrick(addr);
            && PgdField(t) == SELF_REF_INDEX && PudField(t) == SELF_REF_INDEX
            && PmdField(t) == PgdField(addr) && PteField(t) == PudField(addr)
            && t & 0xfff == PmdField(addr) << 3 && t >> 47 == 0x1_ffff
  {
  }

  lemma PudTrickFields(addr: bv64)
    ensures var t := PudTrick(addr);
            && PgdField(t) == SELF_REF_INDEX && PudField(t) == SELF_REF_INDEX
            && PmdField(t) == SELF_REF_INDEX && PteField(t) == PgdField(addr)
            && t & 0xfff == PudField(addr) << 3 && t >> 47 == 0x1_ffff
  {
  }

  lemma PgdTrickFields(addr: bv64)
    ensures var t := PgdTrick(addr);
            && PgdField(t) == SELF_REF_INDEX && PudField(t) == SELF_REF_INDEX
            && PmdField(t) == SELF_REF_INDEX && PteField(t) == SELF_REF_INDEX
            && t & 0xfff == PgdField(addr) << 3 && t >> 47 == 0x1_ffff
  {
  }

  // ---------------------------------------------------------------- the trick

  /** For every address and every self-mapped directory, the trick address of a
      level is a canonical address whose walk ends on the very slot from which an
      ordinary walk of the address reads its entry of that level. */
  lemma PteTrickReachesSlot(ram: Ram, pgd: bv64, addr: bv64)
    requires SelfMapped(ram, pgd)
    ensures Translate(ram, pgd, PteTrick(addr)) == PteSlot(ram, pgd, addr) && PteTrick(addr) >> 47 == 0x1_ffff
  {
    PteTrickFields(addr);
  }

  lemma PmdTrickReachesSlot(ram: Ram, pgd: bv64, addr: bv64)
    requires SelfMapped(ram, pgd)
    ensures Translate(ram, pgd, PmdTrick(addr)) == PmdSlot(ram, pgd, addr) && PmdTrick(addr) >> 47 == 0x1_ffff
  {
    PmdTrickFields(addr);
  }

  lemma PudTrickReachesSlot(ram: Ram, pgd: bv64, addr: bv64)
    requires SelfMapped(ram, pgd)
    ensures Translate(ram, pgd, PudTrick(addr)) == PudSlot(ram, pgd, addr) && PudTrick(addr) >> 47 == 0x1_ffff
  {
    PudTrickFields(addr);
  }

  lemma PgdTrickReachesSlot(ram: Ram, pgd: bv64, addr: bv64)
    requires SelfMapped(ram, pgd)
    ensures Translate(ram, pgd, PgdTrick(addr)) == PgdSlot(pgd, addr) && PgdTrick(addr) >> 47 == 0x1_ffff
  {
    PgdTrickFields(addr);
  }
}
