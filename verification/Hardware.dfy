/** Address translation as the processor does it for 4-level paging (sections 4.5
    to 4.7 of Intel's Software Developer's Manual, volume 3A): it knows only the
    words of memory and the bits in them. */
module Hardware {
  import opened CowMachine

  /** Bits of a paging-structure entry. */
  predicate PresentBit(w: Word) { w % 2 == 1 }
  predicate WriteBit(w: Word) { w / 2 % 2 == 1 }
  predicate UserBit(w: Word) { w / 4 % 2 == 1 }
  predicate SizeBit(w: Word) { w / 128 % 2 == 1 }

  /** The frame number in bits 12 to 51. */
  function Physical(w: Word): nat { w / PG_SIZE % 0x100_0000_0000 }

  /** Does this entry allow the access? Every entry of the walk is asked. */
  predicate Permits(w: Word, user: bool, write: bool) {
    (user ==> UserBit(w)) && (write ==> WriteBit(w))
  }

  /** Fault carries the P flag of the error code: clear when an entry of the walk
      is not present, set when all are and one forbids the access. Large is an
      upper entry that maps a large page or sets a reserved bit. */
  datatype Translation = To(frame: nat) | Fault(protection: bool) | Large

  /** The walk from the table in frame `table` by the given indices; writes of
      the kernel obey WriteBit as well, as they do with CR0.WP set. */
  function Translate(ram: seq<Page>, table: nat, indices: seq<nat>, user: bool, write: bool): Translation
    requires forall i :: 0 <= i < |indices| ==> indices[i] < WORDS
    decreases |indices|
  {
    if indices == [] then To(table)
    else if table >= |ram| || !PresentBit(ram[table][indices[0]]) then Fault(false)
    else
      var w := ram[table][indices[0]];
      if |indices| > 1 && SizeBit(w) then Large
      else
        match Translate(ram, Physical(w), indices[1..], user, write)
        case To(f) => if Permits(w, user, write) then To(f) else Fault(true)
        case other => other
  }
}
