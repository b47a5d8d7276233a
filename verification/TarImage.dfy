/** How an archive is made, and that the kernel reads back what was put in: each
    member is a ustar header (POSIX.1-1988, section 10.1.1) and its data, padded
    to whole blocks; blocks of zeroes end the archive. */
module TarImage {
  import opened Basics
  import opened Bytes
  import opened TarDir

  const NAME_FIELD: nat := 100
  const SIZE_DIGITS: nat := 11
  const REGTYPE: Byte := 48

  /** The fields the kernel does not look at are free: mode, uid and gid before the
      size, mtime and checksum behind it, and all that follows the type. */
  datatype Member = Member(name: Str, dir: bool, data: seq<Byte>,
                           owner: seq<Byte>, stamp: seq<Byte>, tail: seq<Byte>)

  ghost predicate WellMade(m: Member) {
    && |m.name| < NAME_FIELD && |m.data| < Pow8(SIZE_DIGITS) && (m.dir ==> m.data == [])
    && |m.owner| == 24 && |m.stamp| == 20 && |m.tail| == 355
  }

  /** The number n in k octal digits. */
  function OctDigits(n: nat, k: nat): (s: Str)
    ensures |s| == k && Octal(s)
  {
    if k == 0 then [] else OctDigits(n / 8, k - 1) + [ZERO + n % 8]
  }

  lemma {:induction false} OctRoundTrip(n: nat, k: nat)
    requires n < Pow8(k)
    ensures OctValue(OctDigits(n, k)) == n
  {
    if k > 0 {
      OctRoundTrip(n / 8, k - 1);
      OctAppend(OctDigits(n / 8, k - 1), ZERO + n % 8);
    }
  }

  function Zeroes(n: nat): (z: seq<Byte>)
    ensures |z| == n && forall i :: 0 <= i < n ==> z[i] == 0
  {
    seq(n, _ => 0)
  }

  function Header(m: Member): seq<Byte>
    requires |m.name| < NAME_FIELD
  {
    m.name + Zeroes(NAME_FIELD - |m.name|) + m.owner + OctDigits(|m.data|, SIZE_DIGITS) + [0] + m.stamp
    + [if m.dir then DIRTYPE else REGTYPE] + m.tail
  }

  /** The padding up to the next whole block. */
  function Padding(n: nat): nat {
    (HEADER - n % HEADER) % HEADER
  }

  function Record(m: Member): seq<Byte>
    requires |m.name| < NAME_FIELD
  {
    Header(m) + m.data + Zeroes(Padding(|m.data|))
  }

  ghost predicate AllWellMade(ms: seq<Member>) {
    forall i :: 0 <= i < |ms| ==> WellMade(ms[i])
  }

  /** The members in order and then k blocks of zeroes. */
  ghost function Image(ms: seq<Member>, k: nat): seq<Byte>
    requires AllWellMade(ms)
  {
    if ms == [] then Zeroes(HEADER * k) else Record(ms[0]) + Image(ms[1..], k)
  }

  // ---------------------------------------------------------------- rounding

  /** ROUND_TO_512 gives the next multiple of 512. */
  lemma RoundsUp(n: nat)
    ensures RoundTo512(n) % HEADER == 0 && n <= RoundTo512(n) < n + HEADER
  {
  }

  lemma PaddingRounds(n: nat)
    ensures n + Padding(n) == RoundTo512(n)
  {
  }

  // ---------------------------------------------------------------- one member

  /** The places of the fields the kernel reads. */
  lemma HeaderFields(m: Member)
    requires WellMade(m)
    ensures var h, digits := Header(m), OctDigits(|m.data|, SIZE_DIGITS);
            && |h| == HEADER && h[..|m.name|] == m.name && h[|m.name|] == 0
            && h[124..135] == digits && h[135] == 0 && h[156] == (if m.dir then DIRTYPE else REGTYPE)
  {
    hide OctDigits;
    var h, digits := Header(m), OctDigits(|m.data|, SIZE_DIGITS);
    var field := m.name + Zeroes(NAME_FIELD - |m.name|);
    assert h == field + m.owner + digits + [0] + m.stamp + [if m.dir then DIRTYPE else REGTYPE] + m.tail;
    assert h[..100] == field;
    assert h[..|m.name|] == field[..|m.name|] == m.name && h[|m.name|] == field[|m.name|];
  }

  /** A slice of the archive is the same slice of the record in it. */
  lemma Inside(pre: seq<Byte>, rec: seq<Byte>, post: seq<Byte>, a: nat, b: nat)
    requires a <= b <= |rec|
    ensures (pre + rec + post)[|pre| + a..|pre| + b] == rec[a..b]
  {
  }

  /** A string field of a record is read back wherever the record lies. */
  lemma FieldReads(pre: seq<Byte>, rec: seq<Byte>, post: seq<Byte>, a: nat, s: Str)
    requires a + |s| < |rec| && rec[a..a + |s|] == s && rec[a + |s|] == 0
    ensures CStr(pre + rec + post, |pre| + a) == s
  {
    hide CStr;
    Inside(pre, rec, post, a, a + |s|);
    CStrAt(pre + rec + post, |pre| + a, s);
  }

  /** Name, type and size of a member read back, and the next record begins where
      this one's padded data end. */
  lemma MemberReads(pre: seq<Byte>, m: Member, post: seq<Byte>)
    requires WellMade(m)
    ensures var img, p := pre + Record(m) + post, |pre|;
            && Name(img, p) == m.name && (IsDir(img, p) <==> m.dir) && FileSize(img, p) == |m.data|
            && |Record(m)| == HEADER + RoundTo512(|m.data|) && Next(img, p) == p + |Record(m)|
  {
    hide OctValue, OctDigits, CStr, Header, RoundTo512, Padding, Pow8, Wrap;
    var rec, digits := Record(m), OctDigits(|m.data|, SIZE_DIGITS);
    HeaderFields(m);
    PaddingRounds(|m.data|);
    RecordBegins(m);
    OctRoundTrip(|m.data|, SIZE_DIGITS);
    FieldReads(pre, rec, post, 0, m.name);
    FieldReads(pre, rec, post, 124, digits);
    SizeBound(|m.data|);
    assert (pre + rec + post)[|pre| + 156] == rec[156];
    CursorIsBoundary(|m.data|);
    if m.dir { RoundsNothing(); }
  }

  lemma RecordBegins(m: Member)
    requires WellMade(m) && |Header(m)| == HEADER
    ensures |Record(m)| == HEADER + |m.data| + Padding(|m.data|)
    ensures forall i :: 0 <= i < HEADER ==> Record(m)[i] == Header(m)[i]
    ensures forall a, b :: 0 <= a <= b <= HEADER ==> Record(m)[a..b] == Header(m)[a..b]
  {
  }

  lemma SizeBound(n: nat)
    requires n < Pow8(SIZE_DIGITS)
    ensures Wrap(n) == n
  {
    assert Pow8(SIZE_DIGITS) == 512 * 512 * 512 * 64 by {
      assert Pow8(3) == 512 && Pow8(6) == 512 * 512 && Pow8(9) == 512 * 512 * 512;
    }
    WrapSmall(n);
  }

  lemma RoundsNothing()
    ensures RoundTo512(0) == 0
  {
  }

  // ---------------------------------------------------------------- the whole archive

  /** Where the headers of the members lie when the first is at p. */
  ghost function Positions(p: nat, ms: seq<Member>): seq<nat>
    requires AllWellMade(ms)
    decreases |ms|
  {
    if ms == [] then [] else [p] + Positions(p + |Record(ms[0])|, ms[1..])
  }

  /** k blocks from p on. */
  function Blanks(p: nat, k: nat): seq<nat>
    decreases k
  {
    if k == 0 then [] else [p] + Blanks(p + HEADER, k - 1)
  }

  /** A block of zeroes is a record without a name, a type or data. */
  lemma BlankReads(img: seq<Byte>, p: nat)
    requires p + HEADER <= |img| && forall i :: p <= i < |img| ==> img[i] == 0
    ensures Name(img, p) == [] && !IsDir(img, p) && FileSize(img, p) == 0 && Next(img, p) == p + HEADER
  {
    hide RoundTo512, OctValue;
    CStrAt(img, p, []);
    CStrAt(img, p + 124, []);
    OctEmpty();
    RoundsNothing();
    CursorIsBoundary(0);
  }

  lemma {:induction false} BlankRecords(img: seq<Byte>, p: nat, k: nat)
    requires |img| == p + HEADER * k && forall i :: p <= i < |img| ==> img[i] == 0
    ensures Records(img, p) == Blanks(p, k) && Archive(img, p)
    decreases k
  {
    hide Next, Name, IsDir, FileSize;
    if k > 0 {
      BlankReads(img, p);
      BlankRecords(img, p + HEADER, k - 1);
    }
  }

  lemma ImageHead(pre: seq<Byte>, ms: seq<Member>, k: nat)
    requires AllWellMade(ms) && ms != []
    ensures AllWellMade(ms[1..])
    ensures pre + Image(ms, k) == pre + Record(ms[0]) + Image(ms[1..], k)
    ensures |pre + Record(ms[0])| == |pre| + |Record(ms[0])|
  {
    hide Record;
  }

  /** Scanning an archive visits the headers of its members, in order, and the
      blocks of zeroes behind them; nothing else. */
  lemma {:induction false} RecordsAreMembers(pre: seq<Byte>, ms: seq<Member>, k: nat)
    requires AllWellMade(ms)
    ensures |Image(ms, k)| >= HEADER * k
    ensures var img := pre + Image(ms, k);
            Records(img, |pre|) == Positions(|pre|, ms) + Blanks(|img| - HEADER * k, k)
    decreases |ms|
  {
    hide Record, Next, Name, IsDir, FileSize;
    var img := pre + Image(ms, k);
    if ms == [] {
      BlankRecords(img, |pre|, k);
    } else {
      var rest := pre + Record(ms[0]);
      ImageHead(pre, ms, k);
      MemberReads(pre, ms[0], Image(ms[1..], k));
      RecordsAreMembers(rest, ms[1..], k);
    }
  }

  /** Small enough for the int that holds the step. */
  ghost predicate Steppable(ms: seq<Member>) {
    forall i :: 0 <= i < |ms| ==> |ms[i].data| < 0x8000_0000 - 2 * HEADER
  }

  /** Such an archive is one that the scans accept. */
  lemma {:induction false} ImageIsArchive(pre: seq<Byte>, ms: seq<Member>, k: nat)
    requires AllWellMade(ms) && Steppable(ms)
    ensures Archive(pre + Image(ms, k), |pre|)
    decreases |ms|
  {
    hide Record, Next, Name, IsDir, FileSize;
    var img := pre + Image(ms, k);
    if ms == [] {
      BlankRecords(img, |pre|, k);
    } else {
      ImageHead(pre, ms, k);
      MemberReads(pre, ms[0], Image(ms[1..], k));
      ImageIsArchive(pre + Record(ms[0]), ms[1..], k);
    }
  }

  // ---------------------------------------------------------------- what ls shows

  ghost predicate Selected(c: Checker, wanted: Str, m: Member)
    requires wanted != []
  {
    Passes(c, if m.dir then Slashed(wanted) else wanted, m.name)
  }

  /** The directory entry of a member: its type and its name below the directory. */
  function EntryOf(dir: Str, m: Member): Dirent {
    Dirent(if m.dir then 1 else 2, RECLEN, RECLEN,
           if |Stem(dir)| <= |m.name| then m.name[|Stem(dir)|..] else [])
  }

  /** The entries of the members that lie directly in the directory, in order. */
  ghost function Ls(dir: Str, ms: seq<Member>): seq<Dirent>
    requires dir != []
  {
    if ms == [] then []
    else (if Selected(InDirectory, dir, ms[0]) then [EntryOf(dir, ms[0])] else []) + Ls(dir, ms[1..])
  }

  lemma {:induction false} BlanksPass(img: seq<Byte>, c: Checker, wanted: Str, p: nat, k: nat)
    requires wanted != [] && |img| == p + HEADER * k && forall i :: p <= i < |img| ==> img[i] == 0
    ensures Hits(img, c, wanted, Records(img, p)) == []
    decreases k
  {
    hide RoundTo512, OctValue, CStr;
    if k == 0 {
      PastEnd(img, c, wanted, p);
    } else {
      BlankReads(img, p);
      HitsStep(img, c, wanted, p);
      BlanksPass(img, c, wanted, p + HEADER, k - 1);
    }
  }

  lemma ListingHead(img: seq<Byte>, dir: Str, p: nat)
    requires p < |img| && dir != []
    ensures Listing(img, dir, p) == (if Hit(img, InDirectory, dir, p) then [EntryAt(img, dir, p)] else [])
                                    + Listing(img, dir, Next(img, p))
  {
    hide Next, Hit, Hits, Records, EntryAt;
    HitsStep(img, InDirectory, dir, p);
    var ps := Hits(img, InDirectory, dir, Records(img, Next(img, p)));
    assert ([p] + ps)[1..] == ps && [] + ps == ps;
  }

  lemma EntryIsMember(img: seq<Byte>, dir: Str, p: nat, m: Member)
    requires dir != [] && Name(img, p) == m.name && (IsDir(img, p) <==> m.dir)
    ensures Hit(img, InDirectory, dir, p) <==> Selected(InDirectory, dir, m)
    ensures EntryAt(img, dir, p) == EntryOf(dir, m)
  {
    hide Name, IsDir, Passes;
  }

  /** What the kernel lists of an archive is what its maker put into the directory. */
  lemma {:induction false} ListingIsLs(pre: seq<Byte>, ms: seq<Member>, k: nat, dir: Str)
    requires AllWellMade(ms) && dir != []
    ensures Listing(pre + Image(ms, k), dir, |pre|) == Ls(dir, ms)
    decreases |ms|
  {
    hide Record, Next, Name, IsDir, FileSize, Hits, Hit, Records, EntryAt, Selected, EntryOf;
    var img, p := pre + Image(ms, k), |pre|;
    if ms == [] {
      BlanksPass(img, InDirectory, dir, p, k);
    } else {
      hide Listing;
      ImageHead(pre, ms, k);
      MemberReads(pre, ms[0], Image(ms[1..], k));
      ListingIsLs(pre + Record(ms[0]), ms[1..], k, dir);
      ListingHead(img, dir, p);
      EntryIsMember(img, dir, p, ms[0]);
    }
  }

  /** The first member of that name, by its place among the members. */
  ghost function Lookup(wanted: Str, ms: seq<Member>): (r: Option<nat>)
    requires wanted != []
    ensures r.Some? ==> r.value < |ms| && Selected(Strcmp, wanted, ms[r.value])
    ensures r.Some? ==> forall j :: 0 <= j < r.value ==> !Selected(Strcmp, wanted, ms[j])
    ensures r.None? ==> forall j :: 0 <= j < |ms| ==> !Selected(Strcmp, wanted, ms[j])
  {
    if ms == [] then None
    else if Selected(Strcmp, wanted, ms[0]) then Some(0)
    else
      match Lookup(wanted, ms[1..])
      case Some(j) => Some(j + 1)
      case None => None
  }

  /** The scan for a name stops at the header of that member, and the directory's
      contents are sought among the members behind it. */
  lemma {:induction false} LookupIsFirst(pre: seq<Byte>, ms: seq<Member>, k: nat, wanted: Str)
    requires AllWellMade(ms) && wanted != []
    ensures var img := pre + Image(ms, k);
            var hits := Hits(img, Strcmp, wanted, Records(img, |pre|));
            match Lookup(wanted, ms)
            case None => hits == []
            case Some(j) =>
              && hits != [] && Name(img, hits[0]) == ms[j].name && (IsDir(img, hits[0]) <==> ms[j].dir)
              && forall dir: Str :: dir != [] ==> Listing(img, dir, Next(img, hits[0])) == Ls(dir, ms[j + 1..])
    decreases |ms|
  {
    hide Record, Next, Name, IsDir, FileSize, Hits, Hit, Records, EntryAt, Selected, EntryOf, Listing, Ls;
    var img, p := pre + Image(ms, k), |pre|;
    if ms == [] {
      BlanksPass(img, Strcmp, wanted, p, k);
    } else {
      ImageHead(pre, ms, k);
      MemberReads(pre, ms[0], Image(ms[1..], k));
      NameIsMember(img, wanted, p, ms[0]);
      HitsStep(img, Strcmp, wanted, p);
      if Selected(Strcmp, wanted, ms[0]) {
        forall dir: Str | dir != [] ensures Listing(img, dir, Next(img, p)) == Ls(dir, ms[1..]) {
          ListingIsLs(pre + Record(ms[0]), ms[1..], k, dir);
        }
      } else {
        LookupIsFirst(pre + Record(ms[0]), ms[1..], k, wanted);
        LookupRest(wanted, ms);
      }
    }
  }

  lemma LookupRest(wanted: Str, ms: seq<Member>)
    requires wanted != [] && ms != [] && !Selected(Strcmp, wanted, ms[0])
    ensures match Lookup(wanted, ms[1..])
            case None => Lookup(wanted, ms) == None
            case Some(j) =>
              Lookup(wanted, ms) == Some(j + 1) && ms[1..][j] == ms[j + 1] && ms[1..][j + 1..] == ms[j + 2..]
  {
    hide Selected;
    var r := Lookup(wanted, ms[1..]);
    if r.Some? { TailOfTail(ms, r.value); }
  }

  lemma TailOfTail(ms: seq<Member>, j: nat)
    requires j + 1 < |ms|
    ensures ms[1..][j] == ms[j + 1] && ms[1..][j + 1..] == ms[j + 2..]
  {
  }

  lemma NameIsMember(img: seq<Byte>, wanted: Str, p: nat, m: Member)
    requires wanted != [] && Name(img, p) == m.name && (IsDir(img, p) <==> m.dir)
    ensures Hit(img, Strcmp, wanted, p) <==> Selected(Strcmp, wanted, m)
  {
    hide Name, IsDir, Passes;
  }

  /** `ls` of a path on any archive made of such members shows the members directly
      in the root, or those behind the directory's own record that lie in it. */
  method ListArchive(ghost ms: seq<Member>, ghost k: nat, img: seq<Byte>, path: Str) returns (r: Outcome)
    requires AllWellMade(ms) && Steppable(ms) && img == Image(ms, k) && Openable(path)
    ensures IsRoot(path) ==> r == Listed(Ls([SLASH], ms))
    ensures !IsRoot(path) ==>
              match Lookup(Stripped(path), ms)
              case None => r == NotFound
              case Some(j) =>
                if !ms[j].dir then r == NotADirectory
                else ms[j].name != [] && r == Listed(Ls(ms[j].name, ms[j + 1..]))
  {
    hide Record, Next, Name, IsDir, FileSize, Hits, Hit, Records, Listing, Ls, Archive, Stripped, Lookup, Image;
    assert [] + img == img;
    ImageIsArchive([], ms, k);
    r := ListFile(img, path);
    if IsRoot(path) {
      ListingIsLs([], ms, k, [SLASH]);
    } else {
      LookupIsFirst([], ms, k, Stripped(path));
    }
  }
}
