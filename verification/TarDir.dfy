/** Reading a directory of the tar image: the records of the archive, the scan
    of traverse_tarfs, the cursor that getdents keeps between calls and the
    buffer that readdir drains. */
module TarDir {
  import opened Basics
  import opened Bytes

  const SLASH: Byte := 47
  const ZERO: Byte := 48
  const DIRTYPE: Byte := 53
  const HEADER: nat := 512
  const NAME_SIZE: nat := 256   // NAME_MAX + 1

  // ---------------------------------------------------------------- octal numbers

  ghost predicate Octal(s: Str) {
    forall i :: 0 <= i < |s| ==> ZERO <= s[i] < ZERO + 8
  }

  function Pow8(n: nat): nat {
    if n == 0 then 1 else 8 * Pow8(n - 1)
  }

  /** size_str[i] - '0', where char is signed. */
  function Digit(c: Byte): int {
    (if c < 128 then c else c - 256) - ZERO
  }

  /** The number a string of octal digits denotes, first digit most significant. */
  function OctValue(s: seq<Byte>): int {
    if s == [] then 0 else Digit(s[0]) * Pow8(|s| - 1) + OctValue(s[1..])
  }

  lemma {:induction false} OctAppend(s: seq<Byte>, c: Byte)
    ensures OctValue(s + [c]) == 8 * OctValue(s) + Digit(c)
  {
    if s == [] {
      assert ([c])[1..] == [];
    } else {
      assert (s + [c])[1..] == s[1..] + [c];
      OctAppend(s[1..], c);
      calc {
        OctValue(s + [c]);
        Digit(s[0]) * (8 * Pow8(|s| - 1)) + OctValue(s[1..] + [c]);
        8 * (Digit(s[0]) * Pow8(|s| - 1)) + 8 * OctValue(s[1..]) + Digit(c);
      }
    }
  }

  lemma {:induction false} OctBound(s: seq<Byte>)
    requires forall i :: 0 <= i < |s| ==> ZERO <= s[i] < ZERO + 8
    ensures 0 <= OctValue(s) < Pow8(|s|)
  {
    if s != [] {
      OctBound(s[1..]);
      var d, w := Digit(s[0]), Pow8(|s| - 1);
      assert 0 <= d * w <= 7 * w;
    }
  }

  /** The C type uint64_t. */
  function Wrap(x: int): nat {
    x % TWO64
  }

  lemma WrapAdds(x: int, y: int)
    ensures Wrap(8 * Wrap(x) + y) == Wrap(8 * x + y)
  {
    var q, r := x / TWO64, x % TWO64;
    assert 8 * x + y == 8 * r + y + TWO64 * (8 * q);
    WrapShift(8 * r + y, 8 * q);
  }

  lemma WrapShift(a: int, k: int)
    ensures (a + TWO64 * k) % TWO64 == a % TWO64
  {
    var q := a / TWO64;
    assert a + TWO64 * k == TWO64 * (q + k) + a % TWO64;
  }

  lemma WrapSmall(x: int)
    ensures 0 <= x < TWO64 ==> Wrap(x) == x
  {
  }

  /** octstr_to_int: for any field its digits' sum modulo 2^64, and so the number
      itself for every field of octal digits that denotes less than 2^64. */
  method OctstrToInt(s: Str) returns (size: nat)
    ensures size == Wrap(OctValue(s))
    ensures Octal(s) && OctValue(s) < TWO64 ==> size == OctValue(s)
  {
    hide OctValue, Wrap;
    var i := 0;
    size := 0;
    OctEmpty();
    while i < |s|
      invariant 0 <= i <= |s|
      invariant size == Wrap(OctValue(s[..i]))
    {
      assert s[..i + 1] == s[..i] + [s[i]];
      OctAppend(s[..i], s[i]);
      WrapAdds(OctValue(s[..i]), Digit(s[i]));
      size := Wrap(8 * size + Digit(s[i]));
      i := i + 1;
    }
    assert s[..|s|] == s;
    WrapSmall(OctValue(s));
    if Octal(s) { OctBound(s); }
  }

  lemma OctEmpty()
    ensures OctValue([]) == 0 && Wrap(0) == 0
  {
  }

  // ---------------------------------------------------------------- names

  ghost predicate NoSlash(b: seq<Byte>) {
    forall i :: 0 <= i < |b| ==> b[i] != SLASH
  }

  /** What the names under a directory begin with; the faked root adds nothing. */
  function Stem(dir: Str): Str {
    if dir == [SLASH] then [] else dir
  }

  /** `name` is one component under `dir`, itself perhaps a directory. */
  ghost predicate DirectChild(dir: Str, name: Str) {
    dir != [] && name != [] && exists b: Str :: Component(dir, name, b)
  }

  ghost predicate Component(dir: Str, name: Str, b: Str) {
    NoSlash(b) && (name == Stem(dir) + b || name == Stem(dir) + b + [SLASH])
  }

  /** The rest of the name below the directory. */
  function Below(dir: Str, name: Str): Str
    requires |Stem(dir)| <= |name|
  {
    name[|Stem(dir)|..]
  }

  /** The scan that belongs_to_dir makes: no slash before the last character. */
  ghost predicate Flat(s: seq<Byte>, from: nat) {
    forall i :: from <= i < |s| - 1 ==> s[i] != SLASH
  }

  lemma FlatGivesComponent(dir: Str, name: Str) returns (b: Str)
    requires Stem(dir) <= name && Flat(name, |Stem(dir)|)
    ensures Component(dir, name, b)
  {
    hide Stem;
    var n, l := |Stem(dir)|, |name|;
    if n < l && name[l - 1] == SLASH {
      b := name[n..l - 1];
      assert name == Stem(dir) + b + [SLASH];
    } else {
      b := name[n..];
      assert name == Stem(dir) + b;
    }
    forall i | 0 <= i < |b| ensures b[i] != SLASH { assert b[i] == name[n + i]; }
  }

  lemma FlatIsComponent(dir: Str, name: Str)
    requires Stem(dir) <= name
    ensures Flat(name, |Stem(dir)|) <==> exists b: Str :: Component(dir, name, b)
  {
    var n := |Stem(dir)|;
    if Flat(name, n) {
      var b := FlatGivesComponent(dir, name);
    }
    forall b: Str | Component(dir, name, b)
      ensures Flat(name, n)
    {
      assert forall i :: n <= i < |name| - 1 ==> name[i] == b[i - n];
    }
  }

  lemma ChildHasStem(dir: Str, name: Str)
    requires DirectChild(dir, name)
    ensures Stem(dir) <= name
  {
  }

  lemma StemNotShorter(d: Str, e: Str, name: Str)
    requires DirectChild(d, name) && DirectChild(e, name) && name != e
    requires Stem(e) != [] ==> e[|e| - 1] == SLASH
    ensures |Stem(d)| >= |Stem(e)|
  {
    ChildHasStem(d, name);
    ChildHasStem(e, name);
    FlatIsComponent(d, name);
    assert Stem(e) != [] ==> name[|e| - 1] == SLASH;
  }

  /** A record has at most one parent directory besides itself. */
  lemma OneParent(d: Str, e: Str, name: Str)
    requires DirectChild(d, name) && DirectChild(e, name)
    requires Stem(d) != [] ==> d[|d| - 1] == SLASH
    requires Stem(e) != [] ==> e[|e| - 1] == SLASH
    requires name != d && name != e
    ensures d == e
  {
    ChildHasStem(d, name);
    ChildHasStem(e, name);
    StemNotShorter(d, e, name);
    StemNotShorter(e, d, name);
    assert Stem(d) == name[..|Stem(d)|] == Stem(e);
  }

  /** The kernel's strncmp(a, b, n) == 0. */
  method SamePrefix(a: Str, b: Str, n: nat) returns (same: bool)
    requires n == |a|
    ensures same <==> a <= b
  {
    var i := 0;
    while i < |a| && i < |b| && a[i] == b[i]
      invariant 0 <= i <= |a| && i <= |b| && a[..i] == b[..i]
    {
      i := i + 1;
    }
    same := i == n;
    assert a <= b ==> forall j :: 0 <= j < |a| ==> a[j] == b[j];
  }

  /** belongs_to_dir; true is the source's 0. */
  method BelongsToDir(dir: Str, name: Str) returns (belongs: bool)
    ensures belongs <==> DirectChild(dir, name)
  {
    if |dir| == 0 || |name| == 0 { return false; }
    var i := 0;
    if dir != [SLASH] {
      var prefix := SamePrefix(dir, name, |dir|);
      if !prefix {
        if DirectChild(dir, name) { ChildHasStem(dir, name); }
        return false;
      }
      i := |dir|;
    }
    FlatIsComponent(dir, name);
    while i < |name|
      invariant |Stem(dir)| <= i <= |name|
      invariant forall k :: |Stem(dir)| <= k < i ==> name[k] != SLASH
    {
      if name[i] == SLASH { return i + 1 == |name|; }
      i := i + 1;
    }
    return true;
  }

  // ---------------------------------------------------------------- records

  /** The C string at p. */
  function CStr(img: seq<Byte>, p: nat): Str
    decreases |img| - p
  {
    if p >= |img| || img[p] == 0 then [] else
      var rest := CStr(img, p + 1);
      [img[p]] + rest
  }

  /** Fields of the ustar header at p. */
  function Name(img: seq<Byte>, p: nat): Str {
    CStr(img, p)
  }

  function SizeField(img: seq<Byte>, p: nat): Str {
    CStr(img, p + 124)
  }

  /** The size as the kernel reads it. */
  function FileSize(img: seq<Byte>, p: nat): nat {
    Wrap(OctValue(SizeField(img, p)))
  }

  predicate IsDir(img: seq<Byte>, p: nat) {
    p + 156 < |img| && img[p + 156] == DIRTYPE
  }

  function RoundTo512(n: nat): nat {
    (n + HEADER - 1) / HEADER * HEADER
  }

  /** Where the record after the one at p begins: directories hold no data. */
  function Next(img: seq<Byte>, p: nat): (q: nat)
    ensures q >= p + HEADER
  {
    if IsDir(img, p) then p + HEADER else p + RoundTo512(FileSize(img, p) + HEADER)
  }

  /** From p on the image is a run of complete headers, with sizes that the int
      arithmetic of traverse_tarfs steps over and names that getdents accepts. */
  ghost predicate Archive(img: seq<Byte>, p: nat)
    decreases |img| - p
  {
    p >= |img| || (p + HEADER <= |img| && |Name(img, p)| < NAME_SIZE
      && (IsDir(img, p) || FileSize(img, p) < 0x8000_0000 - 2 * HEADER)
                    && Archive(img, Next(img, p)))
  }

  function Records(img: seq<Byte>, p: nat): seq<nat>
    decreases |img| - p
  {
    if p >= |img| then [] else [p] + Records(img, Next(img, p))
  }

  // ---------------------------------------------------------------- the scan

  datatype Checker = Strcmp | InDirectory

  ghost predicate Passes(c: Checker, wanted: Str, name: Str) {
    match c
    case Strcmp => wanted == name
    case InDirectory => DirectChild(wanted, name)
  }

  method Check(c: Checker, wanted: Str, name: Str) returns (ok: bool)
    ensures ok <==> Passes(c, wanted, name)
  {
    match c {
      case Strcmp => ok := wanted == name;
      case InDirectory => ok := BelongsToDir(wanted, name);
    }
  }

  function Slashed(name: Str): Str
    requires name != []
  {
    if name[|name| - 1] != SLASH then name + [SLASH] else name
  }

  ghost predicate Hit(img: seq<Byte>, c: Checker, wanted: Str, p: nat)
    requires wanted != []
  {
    Passes(c, if IsDir(img, p) then Slashed(wanted) else wanted, Name(img, p))
  }

  /** The reference: the records that pass, in archive order. */
  ghost function Hits(img: seq<Byte>, c: Checker, wanted: Str, ps: seq<nat>): seq<nat>
    requires wanted != []
  {
    if ps == [] then [] else
      (if Hit(img, c, wanted, ps[0]) then [ps[0]] else []) + Hits(img, c, wanted, ps[1..])
  }

  /** traverse_tarfs: the first record from `start` that passes the checker. */
  method TraverseTarfs(img: seq<Byte>, filename: Str, start: nat, c: Checker) returns (res: Option<nat>, dir: bool)
    requires Archive(img, start) && filename != [] && |Slashed(filename)| < 64
    ensures var hits := Hits(img, c, filename, Records(img, start));
            match res
            case None => hits == []
            case Some(p) => start <= p < |img| && Archive(img, p) && dir == IsDir(img, p) && Hit(img, c, filename, p)
                            && hits == [p] + Hits(img, c, filename, Records(img, Next(img, p)))
  {
    hide Hits, Records, Archive, Passes, CStr, OctValue, RoundTo512;
    var p := start;
    res, dir := None, false;
    while p < |img|
      invariant Archive(img, p) && start <= p
      invariant Hits(img, c, filename, Records(img, start)) == Hits(img, c, filename, Records(img, p))
      decreases |img| - p
    {
      StepOver(img, c, filename, p);
      if img[p + 156] == DIRTYPE {
        var name := if filename[|filename| - 1] != SLASH then filename + [SLASH] else filename;
        var ok := Check(c, name, Name(img, p));
        if ok { return Some(p), true; }
        p := p + HEADER;
      } else {
        var ok := Check(c, filename, Name(img, p));
        if ok { return Some(p), false; }
        var size := OctstrToInt(SizeField(img, p));
        p := p + RoundTo512(size + HEADER);
      }
    }
    PastEnd(img, c, filename, p);
  }

  lemma PastEnd(img: seq<Byte>, c: Checker, wanted: Str, p: nat)
    requires p >= |img| && wanted != []
    ensures Hits(img, c, wanted, Records(img, p)) == []
  {
  }

  lemma HitsStep(img: seq<Byte>, c: Checker, wanted: Str, p: nat)
    requires p < |img| && wanted != []
    ensures Hits(img, c, wanted, Records(img, p))
         == (if Hit(img, c, wanted, p) then [p] else []) + Hits(img, c, wanted, Records(img, Next(img, p)))
  {
    assert Records(img, p)[1..] == Records(img, Next(img, p));
  }

  lemma StepOver(img: seq<Byte>, c: Checker, wanted: Str, p: nat)
    requires Archive(img, p) && p < |img| && wanted != []
    ensures p + HEADER <= |img| && Archive(img, Next(img, p))
    ensures |Name(img, p)| < NAME_SIZE
    ensures Hits(img, c, wanted, Records(img, p))
         == (if Hit(img, c, wanted, p) then [p] else []) + Hits(img, c, wanted, Records(img, Next(img, p)))
  {
    HitsStep(img, c, wanted, p);
  }

  /** The cursor that getdents computes is the boundary that the scan would reach. */
  lemma CursorIsBoundary(size: nat)
    ensures RoundTo512(size) + HEADER == RoundTo512(size + HEADER)
  {
  }

  lemma {:induction false} HitsExact(img: seq<Byte>, c: Checker, wanted: Str, ps: seq<nat>, p: nat)
    requires wanted != []
    ensures p in Hits(img, c, wanted, ps) <==> p in ps && Hit(img, c, wanted, p)
  {
    if ps != [] { HitsExact(img, c, wanted, ps[1..], p); }
  }

  lemma {:induction false} RecordsFrom(img: seq<Byte>, p: nat, q: nat)
    requires q in Records(img, p)
    ensures p <= q < |img|
    decreases |img| - p
  {
    if q != p { RecordsFrom(img, Next(img, p), q); }
  }

  /** Each record that passes is found once, in archive order. */
  lemma {:induction false} HitsInOrder(img: seq<Byte>, c: Checker, wanted: Str, p: nat, i: nat, j: nat)
    requires wanted != [] && i < j < |Hits(img, c, wanted, Records(img, p))|
    ensures var hits := Hits(img, c, wanted, Records(img, p)); p <= hits[i] < hits[j]
    decreases |img| - p
  {
    hide Hits, Records, Hit;
    var n := Next(img, p);
    var rest := Hits(img, c, wanted, Records(img, n));
    if p >= |img| { PastEnd(img, c, wanted, p); }
    HitsStep(img, c, wanted, p);
    if !Hit(img, c, wanted, p) {
      HitsInOrder(img, c, wanted, n, i, j);
    } else if i > 0 {
      HitsInOrder(img, c, wanted, n, i - 1, j - 1);
    } else {
      HitsExact(img, c, wanted, Records(img, n), rest[j - 1]);
      RecordsFrom(img, n, rest[j - 1]);
    }
  }

  // ---------------------------------------------------------------- directory streams

  const FT_DIR: nat := 0
  const FT_FILE: nat := 1
  const RECLEN: nat := 274    // sizeof(struct dirent), packed
  const BUFLEN: nat := 512

  datatype Dirent = Dirent(ino: nat, off: nat, reclen: nat, name: Str)

  /** struct dirent as kernel and library lay it out, the name padded with zeroes. */
  function Encode(d: Dirent): (b: seq<Byte>)
    requires |d.name| < NAME_SIZE
    ensures |b| == RECLEN
  {
    ToBytes(d.ino, 8) + ToBytes(d.off, 8) + ToBytes(d.reclen, 2) + d.name + seq(NAME_SIZE - |d.name|, _ => 0)
  }

  function Decode(b: seq<Byte>): Dirent
    requires |b| >= RECLEN
  {
    Dirent(FromBytes(b[..8]), FromBytes(b[8..16]), FromBytes(b[16..18]), CStr(b, 18))
  }

  lemma {:induction false} CStrAt(b: seq<Byte>, p: nat, s: Str)
    requires p + |s| < |b| && b[p..p + |s|] == s && b[p + |s|] == 0
    ensures CStr(b, p) == s
    decreases |s|
  {
    if s != [] {
      assert b[p] == s[0] && b[p + 1..p + |s|] == s[1..];
      CStrAt(b, p + 1, s[1..]);
    }
  }

  /** What getdents writes into the buffer is what readdir finds there. */
  lemma DirentRoundTrip(d: Dirent, rest: seq<Byte>)
    requires |d.name| < NAME_SIZE && d.ino < Pow256(8) && d.off < Pow256(8) && d.reclen < Pow256(2)
    ensures Decode(Encode(d) + rest) == d
  {
    hide Pow256, CStr, ToBytes, FromBytes;
    var b := Encode(d) + rest;
    var pad: seq<Byte> := seq(NAME_SIZE - |d.name|, _ => 0);
    assert b == ToBytes(d.ino, 8) + ToBytes(d.off, 8) + ToBytes(d.reclen, 2) + d.name + pad + rest;
    assert b[..8] == ToBytes(d.ino, 8) && b[8..16] == ToBytes(d.off, 8) && b[16..18] == ToBytes(d.reclen, 2);
    assert b[18..18 + |d.name|] == d.name && b[18 + |d.name|] == pad[0];
    BytesRoundTrip(d.ino, 8);
    BytesRoundTrip(d.off, 8);
    BytesRoundTrip(d.reclen, 2);
    CStrAt(b, 18, d.name);
  }

  function EntryAt(img: seq<Byte>, dir: Str, p: nat): Dirent {
    var name := Name(img, p);
    Dirent(if IsDir(img, p) then FT_DIR + 1 else FT_FILE + 1, RECLEN, RECLEN,
           if |Stem(dir)| <= |name| then Below(dir, name) else [])
  }

  function Entries(img: seq<Byte>, dir: Str, ps: seq<nat>): seq<Dirent> {
    if ps == [] then [] else [EntryAt(img, dir, ps[0])] + Entries(img, dir, ps[1..])
  }

  /** What a directory lists from p on. */
  ghost function Listing(img: seq<Byte>, dir: Str, p: nat): seq<Dirent>
    requires dir != []
  {
    Entries(img, dir, Hits(img, InDirectory, dir, Records(img, p)))
  }

  /** A listing has one entry for each record that passes, in the same order. */
  lemma {:induction false} EntriesAt(img: seq<Byte>, dir: Str, ps: seq<nat>, i: nat)
    requires i < |ps|
    ensures |Entries(img, dir, ps)| == |ps| && Entries(img, dir, ps)[i] == EntryAt(img, dir, ps[i])
  {
    if |ps| > 1 { EntriesAt(img, dir, ps[1..], if i > 0 then i - 1 else 0); }
  }

  /** An entry's name completes the directory's to the record's, and is one
      component, with a slash only at its end; its inode tells the type, and is
      not zero, which readdir would skip. */
  lemma EntryCompletes(img: seq<Byte>, dir: Str, p: nat)
    requires dir != [] && dir[|dir| - 1] == SLASH && Hit(img, InDirectory, dir, p)
    ensures var e := EntryAt(img, dir, p).name; Name(img, p) == Stem(dir) + e && Flat(e, 0)
    ensures EntryAt(img, dir, p).ino in {1, 2} && (EntryAt(img, dir, p).ino == 1 <==> IsDir(img, p))
  {
    hide CStr, Component;
    var name := Name(img, p);
    ChildHasStem(dir, name);
    FlatIsComponent(dir, name);
    var e := EntryAt(img, dir, p).name;
    assert forall i :: 0 <= i < |e| ==> e[i] == name[|Stem(dir)| + i];
  }

  /** What a scan's result says about the listing. */
  lemma ListingStep(img: seq<Byte>, dir: Str, from: nat, res: Option<nat>)
    requires dir != [] && dir[|dir| - 1] == SLASH
    requires var hits := Hits(img, InDirectory, dir, Records(img, from));
             match res
             case None => hits == []
             case Some(p) =>
               && Hit(img, InDirectory, dir, p)
               && hits == [p] + Hits(img, InDirectory, dir, Records(img, Next(img, p)))
    ensures match res
            case None => Listing(img, dir, from) == []
            case Some(p) =>
              && Stem(dir) <= Name(img, p)
              && Listing(img, dir, from) == [EntryAt(img, dir, p)] + Listing(img, dir, Next(img, p))
  {
    hide Hits, Records, CStr, Next;
    match res {
      case None =>
      case Some(p) =>
        ChildHasStem(dir, Name(img, p));
        var rest := Hits(img, InDirectory, dir, Records(img, Next(img, p)));
        assert ([p] + rest)[1..] == rest;
    }
  }

  /** An open directory: the kernel's file slot and the C library's DIR. */
  class Directory {
    const img: seq<Byte>
    const name: Str
    const start: nat
    var pos: nat
    var ddLoc: int
    var ddSize: int
    var ddBuf: seq<Byte>

    ghost predicate Valid()
      reads this
    {
      && 0 < |name| < 64 && name[|name| - 1] == SLASH && Archive(img, start + pos)
      && |ddBuf| == BUFLEN && (ddLoc == 0 || (ddLoc == RECLEN && ddSize == RECLEN))
    }

    /** What is still to be read. */
    ghost function Rest(): seq<Dirent>
      reads this
      requires Valid()
    {
      Listing(img, name, start + pos)
    }

    constructor (image: seq<Byte>, dir: Str, from: nat)
      requires 0 < |dir| < 64 && dir[|dir| - 1] == SLASH && Archive(image, from)
      ensures Valid() && img == image && name == dir && start == from && pos == 0
    {
      img, name, start := image, dir, from;
      pos, ddLoc, ddSize := 0, 0, 0;
      ddBuf := seq(BUFLEN, _ => 0);
    }

    /** The system call: at most one entry, written at the head of the buffer, and
        the cursor moved past it. */
    method Getdents(dp: seq<Byte>) returns (n: int, buf: seq<Byte>)
      requires Valid() && |dp| == BUFLEN
      modifies this`pos
      ensures Valid() && |buf| == BUFLEN
      ensures n == 0 <==> old(Rest()) == []
      ensures n == 0 ==> pos == old(pos) && buf == dp
      ensures n != 0 ==> n == RECLEN && old(Rest()) == [Decode(buf)] + Rest() && buf[RECLEN..] == dp[RECLEN..]
      ensures n != 0 ==> Decode(buf).reclen == RECLEN && Decode(buf).ino in {FT_DIR + 1, FT_FILE + 1}
    {
      hide Hits, Records, Archive, Hit, CStr, Next, Listing, Decode, Encode;
      n, buf := 0, dp;
      var res, dir := TraverseTarfs(img, name, start + pos, InDirectory);
      ListingStep(img, name, start + pos, res);
      if res.Some? {
        var p := res.value;
        StepOver(img, InDirectory, name, p);
        pos := After(p, dir);
        var rec := Name(img, p);
        var d := Dirent((if dir then FT_DIR else FT_FILE) + 1, RECLEN, RECLEN,
                        if name == [SLASH] then rec else rec[|name|..]);
        DirentRoundTrip(d, dp[RECLEN..]);
        n, buf := RECLEN, Encode(d) + dp[RECLEN..];
      }
    }

    /** The cursor past the record at p. */
    method After(p: nat, dir: bool) returns (cursor: nat)
      requires start <= p < |img| && Archive(img, p) && name != [] && dir == IsDir(img, p)
      ensures start + cursor == Next(img, p) && Archive(img, start + cursor)
    {
      hide Hits, Records, Archive, Hit, CStr, OctValue, RoundTo512;
      StepOver(img, InDirectory, name, p);
      if dir { return p - start + HEADER; }
      var size := OctstrToInt(SizeField(img, p));
      CursorIsBoundary(size);
      return p - start + RoundTo512(size) + HEADER;
    }

    /** readdir: one entry a call, until none is left. */
    method Readdir() returns (r: Option<Dirent>)
      requires Valid()
      modifies this
      ensures Valid()
      ensures match r
              case None => old(Rest()) == [] && Rest() == []
              case Some(d) => old(Rest()) == [d] + Rest()
    {
      hide Listing, Archive;
      while true
        invariant Valid() && Rest() == old(Rest())
        decreases ddLoc
      {
        if ddLoc == 0 {
          ddSize, ddBuf := Getdents(ddBuf);
          if ddSize <= 0 { return None; }
        }
        if ddLoc >= ddSize {
          ddLoc := 0;
          continue;
        }
        var d := Decode(ddBuf[ddLoc..]);
        if d.reclen <= 0 || d.reclen > BUFLEN + 1 - ddLoc { return None; }
        ddLoc := ddLoc + d.reclen;
        if d.ino == 0 { continue; }
        return Some(d);
      }
    }

    /** Reading to the end, as list_file does. */
    method ReadAll() returns (all: seq<Dirent>)
      requires Valid()
      modifies this
      ensures Valid() && all == old(Rest()) && Rest() == []
    {
      hide Listing, Archive;
      all := [];
      while true
        invariant Valid() && all + Rest() == old(Rest())
        decreases |Rest()|
      {
        var r := Readdir();
        match r {
          case None => return;
          case Some(d) => all := all + [d];
        }
      }
    }
  }

  // ---------------------------------------------------------------- opening

  /** The name without its leading slashes. */
  function Stripped(s: Str): Str {
    if s != [] && s[0] == SLASH then Stripped(s[1..]) else s
  }

  ghost predicate IsRoot(s: Str) {
    0 < |s| <= 3 && Stripped(s) == []
  }

  /** The path passes tarfs_open's assertion, and without its leading slashes it is
      not empty and fits the kernel's name buffers. */
  ghost predicate Openable(s: Str) {
    |s| < 128 && (IsRoot(s) || (Stripped(s) != [] && |Slashed(Stripped(s))| < 64))
  }

  lemma {:induction false} StrippedAt(s: Str, n: nat)
    requires n <= |s| && (forall i :: 0 <= i < n ==> s[i] == SLASH) && (n < |s| ==> s[n] != SLASH)
    ensures Stripped(s) == s[n..]
  {
    if n > 0 { StrippedAt(s[1..], n - 1); }
  }

  /** tarfs_open: the faked root, or the first record of that name. */
  method TarfsOpen(img: seq<Byte>, filename: Str) returns (found: bool, dir: bool, name: Str, start: nat)
    requires Archive(img, 0) && Openable(filename)
    ensures IsRoot(filename) ==> found && dir && name == [SLASH] && start == 0
    ensures !IsRoot(filename) ==>
              var hits := Hits(img, Strcmp, Stripped(filename), Records(img, 0));
              && (found <==> hits != [])
              && (found ==> name == Name(img, hits[0]) && dir == IsDir(img, hits[0]) && start == hits[0] + HEADER)
    ensures found && dir ==> 0 < |name| < 64 && name[|name| - 1] == SLASH && Archive(img, start)
  {
    hide Hits, Records, CStr;
    var skip := 0;
    while skip < |filename| && filename[skip] == SLASH
      invariant 0 <= skip <= |filename| && forall i :: 0 <= i < skip ==> filename[i] == SLASH
    {
      skip := skip + 1;
    }
    StrippedAt(filename, skip);
    name := filename[skip..];
    if filename == [SLASH] || filename == [SLASH, SLASH] || filename == [SLASH, SLASH, SLASH] {
      return true, true, [SLASH], 0;
    }
    var res, isDir := TraverseTarfs(img, name, 0, Strcmp);
    if res.None? { return false, false, name, 0; }
    found, dir, start := true, isDir, res.value + HEADER;
    if dir && name[|name| - 1] != SLASH { name := name + [SLASH]; }
  }

  /** A path that names no record, one that names a plain file, whose entries
      getdents refuses with a failed assertion, or the entries in order. */
  datatype Outcome = NotFound | NotADirectory | Listed(entries: seq<Dirent>)

  /** opendir and then readdir to the end, as list_file does for `ls`. */
  method ListFile(img: seq<Byte>, path: Str) returns (r: Outcome)
    requires Archive(img, 0) && Openable(path)
    ensures IsRoot(path) ==> r == Listed(Listing(img, [SLASH], 0))
    ensures !IsRoot(path) ==>
              var hits := Hits(img, Strcmp, Stripped(path), Records(img, 0));
              if hits == [] then r == NotFound
              else if !IsDir(img, hits[0]) then r == NotADirectory
              else Name(img, hits[0]) != [] && r == Listed(Listing(img, Name(img, hits[0]), Next(img, hits[0])))
  {
    hide Hits, Records, CStr, Listing, Archive, Stripped;
    var found, dir, name, start := TarfsOpen(img, path);
    if !found { return NotFound; }
    if !dir { return NotADirectory; }
    var d := new Directory(img, name, start);
    var all := d.ReadAll();
    r := Listed(all);
  }
}
