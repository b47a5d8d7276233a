/** Lazy loading against eager loading: the byte that map_a_page installs when a
    page is first touched, and the byte that map_vma installs when it loads the
    whole segment at once. */
module LazyLoad {
  import opened Basics
  import opened Bytes
  import opened CowMachine


  // ---------------------------------------------------------------- the two loaders

  /** The byte at address x after demand mapping of its page. */
  function LazyByte(a: Vma, x: nat): Byte {
    ByteOf(Fill(a, x / PG_SIZE)[x % PG_SIZE / 8], x % 8)
  }

  /** The byte at address x that the segment is meant to have: the file's bytes,
      then zeroes up to the end of its pages. */
  function SegmentByte(a: Vma, x: nat): Byte {
    if a.backing.File? && a.start <= x < a.start + a.filesz then a.backing.byteAt(a.pgoff + x - a.start) else 0
  }

  /** map_vma's loader: zeroed pages, then vm_filesz bytes copied to vm_start. */
  method EagerLoad(a: Vma) returns (mem: map<nat, Byte>)
    requires a.backing.File? && a.start + a.filesz <= a.end && 0 < a.end
    ensures forall x: nat :: x in mem <==> a.Touches(x / PG_SIZE)
    ensures forall x :: x in mem ==> mem[x] == SegmentByte(a, x)
  {
    mem := map x: nat | 0 <= x < ((a.end - 1) / PG_SIZE + 1) * PG_SIZE && a.Touches(x / PG_SIZE) :: 0;
    var i := 0;
    while i < a.filesz
      invariant 0 <= i <= a.filesz
      invariant forall x: nat :: x in mem <==> a.Touches(x / PG_SIZE)
      invariant forall x :: x in mem ==>
                  mem[x] == if a.start <= x < a.start + i then a.backing.byteAt(a.pgoff + x - a.start) else 0
    {
      mem := mem[a.start + i := a.backing.byteAt(a.pgoff + i)];
      i := i + 1;
    }
  }

  /** Page, word and byte of an address. */
  lemma Pieces(x: nat)
    ensures x == x / PG_SIZE * PG_SIZE + 8 * (x % PG_SIZE / 8) + x % 8 && x % PG_SIZE / 8 < WORDS
  {
    var v, r := x / PG_SIZE, x % PG_SIZE;
    assert x == 8 * (512 * v) + r && r == 8 * (r / 8) + r % 8;
    assert x == 8 * (512 * v + r / 8) + r % 8;
  }

  lemma FillWord(a: Vma, v: nat, i: nat)
    requires a.backing.File? && i < WORDS
    ensures Fill(a, v)[i] ==
            FromBytes(seq(8, l requires 0 <= l < 8 => a.backing.byteAt(a.pgoff + v * PG_SIZE - a.start + 8 * i + l)))
  {
    var off := a.pgoff + v * PG_SIZE - a.start;
    assert seq(8, l requires 0 <= l < 8 => a.backing.byteAt(off + 8 * i + l))
        == seq(8, l requires 0 <= l < 8 => a.backing.byteAt(a.pgoff + v * PG_SIZE - a.start + 8 * i + l));
  }

  /** Whatever page it lies in, a lazily loaded byte comes from the backing
      memory at its own distance from vm_start. */
  lemma LazyByteSource(a: Vma, x: nat)
    requires a.backing.File?
    ensures LazyByte(a, x) == a.backing.byteAt(a.pgoff + x - a.start)
  {
    var v, i, j := x / PG_SIZE, x % PG_SIZE / 8, x % 8;
    Pieces(x);
    FillWord(a, v, i);
    var b := seq(8, l requires 0 <= l < 8 => a.backing.byteAt(a.pgoff + v * PG_SIZE - a.start + 8 * i + l));
    hide Fill, FromBytes, ByteOf;
    ByteOfFromBytes(b, j);
  }

  /** On the file part of a segment both loaders install the same bytes, wherever
      vm_start lies in its page; elsewhere they agree exactly where the backing
      memory happens to hold a zero, because map_a_page ignores vm_filesz. */
  lemma LazyAgreesWithEager(a: Vma, x: nat)
    requires a.backing.File?
    ensures a.start <= x < a.start + a.filesz ==> LazyByte(a, x) == SegmentByte(a, x)
    ensures !(a.start <= x < a.start + a.filesz) ==>
              (LazyByte(a, x) == SegmentByte(a, x) <==> a.backing.byteAt(a.pgoff + x - a.start) == 0)
  {
    LazyByteSource(a, x);
  }

  /** A segment of sixteen file bytes in a page, in a file that goes on after them. */
  function ShortSegment(): Vma {
    Vma(0x40_0000, 0x40_1000, true, File((i: int) => 7), 0, 0x10)
  }

  /** Behind the segment's sixteen bytes its page holds the file's next bytes, where
      map_vma leaves zeroes. */
  lemma LazyDiffers()
    ensures var a := ShortSegment(); LazyByte(a, 0x40_0010) == 7 && SegmentByte(a, 0x40_0010) == 0
  {
    LazyByteSource(ShortSegment(), 0x40_0010);
  }

  /** The file pointer is computed in 64-bit arithmetic, where the inner offset of
      a page below vm_start wraps; the sum comes out right. */
  function FilePointer(base: nat, pgoff: nat, start: nat, v: nat): nat {
    (base + pgoff + (v * PG_SIZE - start) % TWO64) % TWO64
  }

  lemma InnerOffsetWraps(base: nat, pgoff: nat, start: nat, v: nat)
    requires 0 <= base + pgoff + v * PG_SIZE - start < TWO64 && start < TWO64 && v * PG_SIZE < TWO64
    ensures FilePointer(base, pgoff, start, v) == base + pgoff + v * PG_SIZE - start
  {
    var d := v * PG_SIZE - start;
    if d < 0 {
      assert d % TWO64 == d + TWO64;
      assert (base + pgoff + d + TWO64) % TWO64 == base + pgoff + d;
    }
  }
}
