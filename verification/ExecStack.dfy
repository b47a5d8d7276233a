/** exec's argument stack: the argument and environment lists of the caller are
    copied to a kernel buffer, the old address space is dropped, and the lists
    are laid out in the top page of the new one, where _start finds them. */
module ExecStack {
  import opened Basics
  import opened Bytes

  const USER_TOP: nat := 0x8000_0000_0000
  const PG_SIZE: nat := 4096

  /** The bytes that are mapped, by address. */
  type Mem = map<nat, Byte>

  /** An argv-like list. */
  type StrList = seq<Str>

  // ---------------------------------------------------------------- numbers and strings in memory

  ghost predicate Mapped(m: Mem, p: nat, n: nat) {
    forall a: nat :: p <= a < p + n ==> a in m
  }

  function Num(m: Mem, p: nat, n: nat): (r: nat)
    requires Mapped(m, p, n)
  {
    FromBytes(seq(n, i requires 0 <= i < n => m[p + i]))
  }

  function PutNum(m: Mem, p: nat, n: nat, x: nat): (r: Mem)
    ensures r.Keys == m.Keys && forall a :: a in m && !(p <= a < p + n) ==> r[a] == m[a]
  {
    map a | a in m :: if p <= a < p + n then ToBytes(x, n)[a - p] else m[a]
  }

  lemma PutThenNum(m: Mem, p: nat, n: nat, x: nat)
    requires Mapped(m, p, n) && x < Pow256(n)
    ensures Num(PutNum(m, p, n, x), p, n) == x
  {
    var k := PutNum(m, p, n, x);
    forall i | 0 <= i < n
      ensures k[p + i] == ToBytes(x, n)[i]
    {
      assert p + i in m;
    }
    assert seq(n, i requires 0 <= i < n => k[p + i]) == ToBytes(x, n);
    BytesRoundTrip(x, n);
  }

  ghost predicate Same(m: Mem, k: Mem, p: nat, n: nat) {
    forall a: nat :: p <= a < p + n && a in m ==> a in k && k[a] == m[a]
  }

  lemma NumSame(m: Mem, k: Mem, p: nat, n: nat)
    requires Mapped(m, p, n) && Same(m, k, p, n)
    ensures Mapped(k, p, n) && Num(k, p, n) == Num(m, p, n)
  {
    assert seq(n, i requires 0 <= i < n => m[p + i]) == seq(n, i requires 0 <= i < n => k[p + i]);
  }

  ghost predicate StrAt(m: Mem, p: nat, s: Str) {
    Mapped(m, p, |s| + 1) && (forall j :: 0 <= j < |s| ==> m[p + j] == s[j]) && m[p + |s|] == 0
  }

  /** A list of non-null pointers to strings, closed by a null pointer. */
  ghost predicate ListAt(m: Mem, p: nat, ss: StrList) {
    && Mapped(m, p, 8 * |ss| + 8)
    && (forall i :: 0 <= i < |ss| ==> PointerAt(m, p + 8 * i, ss[i]))
    && Num(m, p + 8 * |ss|, 8) == 0
  }

  ghost predicate PointerAt(m: Mem, p: nat, s: Str) {
    Mapped(m, p, 8) && Num(m, p, 8) != 0 && StrAt(m, Num(m, p, 8), s)
  }

  lemma InsideIsNotNul(m: Mem, p: nat, s: Str, n: nat)
    requires StrAt(m, p, s) && n < |s|
    ensures m[p + n] != 0
  {
    assert s[n] != 0;
  }

  lemma StrAtUnique(m: Mem, p: nat, s: Str, t: Str)
    requires StrAt(m, p, s) && StrAt(m, p, t)
    ensures s == t
  {
    if |t| < |s| { InsideIsNotNul(m, p, s, |t|); }
    if |s| < |t| { InsideIsNotNul(m, p, t, |s|); }
  }

  /** Memory holds at most one list at an address. */
  lemma ListAtUnique(m: Mem, p: nat, ss: StrList, tt: StrList)
    requires ListAt(m, p, ss) && ListAt(m, p, tt)
    ensures ss == tt
  {
    assert |ss| < |tt| ==> PointerAt(m, p + 8 * |ss|, tt[|ss|]);
    assert |tt| < |ss| ==> PointerAt(m, p + 8 * |tt|, ss[|tt|]);
    forall i | 0 <= i < |ss|
      ensures ss[i] == tt[i]
    {
      StrAtUnique(m, Num(m, p + 8 * i, 8), ss[i], tt[i]);
    }
  }

  /** Bytes the first n strings take, each with its terminator. */
  function Offset(ss: StrList, n: nat): nat
    requires n <= |ss|
  {
    if n == 0 then 0 else Offset(ss, n - 1) + |ss[n - 1]| + 1
  }

  function Size(ss: StrList): nat {
    Offset(ss, |ss|)
  }

  lemma {:induction false} OffsetMonotone(ss: StrList, i: nat, n: nat)
    requires i < n <= |ss|
    ensures Offset(ss, i) + |ss[i]| + 1 <= Offset(ss, n)
  {
    if i + 1 < n { OffsetMonotone(ss, i, n - 1); }
  }

  /** A list whose strings lie one after the other from `start`. */
  ghost predicate Packed(m: Mem, p: nat, start: nat, ss: StrList) {
    forall i :: 0 <= i < |ss| ==> PackedAt(m, p + 8 * i, start + Offset(ss, i), ss[i])
  }

  ghost predicate PackedAt(m: Mem, p: nat, at: nat, s: Str) {
    Mapped(m, p, 8) && Num(m, p, 8) == at && StrAt(m, at, s)
  }

  // ---------------------------------------------------------------- the layout

  /** The C type int. */
  function Int32(x: int): int {
    var r := x % 0x1_0000_0000;
    if r < 0x8000_0000 then r else r - 0x1_0000_0000
  }

  lemma Int32Adds(x: int, y: int)
    ensures Int32(Int32(x) + y) == Int32(x + y)
  {
    var q, r := x / 0x1_0000_0000, x % 0x1_0000_0000;
    assert x == 0x1_0000_0000 * q + r;
  }

  lemma Int32Zero()
    ensures Int32(0) == 0
  {
  }

  function ParameterSize(args: StrList, envs: StrList): nat {
    Size(args) + Size(envs) + 8 * (|args| + 1) + 8 * (|envs| + 1) + 8
  }

  /** exec's assertion, which adds up in int. */
  predicate Accepts(total: nat) {
    Int32(Int32(total) + 0x100) < PG_SIZE
  }

  /** The assertion looks at the total modulo 2^32 and means what it says up to
      where int overflows; from there it lets through all that wraps. */
  lemma AcceptsExactly(total: nat)
    ensures var r := total % 0x1_0000_0000; Accepts(total) <==> r + 0x100 < PG_SIZE || 0x8000_0000 <= r + 0x100
  {
  }

  lemma {:induction false} EqualStrings(ss: StrList, l: nat, n: nat)
    requires n <= |ss| && forall i :: 0 <= i < |ss| ==> |ss[i]| == l
    ensures Offset(ss, n) == n * (l + 1)
  {
    if n > 0 { EqualStrings(ss, l, n - 1); }
  }

  /** Lists that pass the assertion and do not fit: thirty-two pointers to one
      string of 2^26 - 1 characters, and no environment. */
  lemma OverrunHappens(s: Str) returns (args: StrList)
    requires |s| == 0x3ff_ffff
    ensures |args| == 32 && forall i :: 0 <= i < |args| ==> args[i] == s
    ensures Accepts(ParameterSize(args, [])) && ParameterSize(args, []) + 0x100 >= PG_SIZE
  {
    args := seq(32, _ => s);
    EqualStrings(args, |s|, 32);
    AcceptsExactly(ParameterSize(args, []));
  }

  /** The int sum is the true sum's, and lists that fit are accepted. */
  lemma SizesWrap(args: StrList, envs: StrList)
    ensures Int32(Int32(Size(args)) + Int32(Size(envs)) + 8 * (|args| + 1) + 8 * (|envs| + 1) + 8)
         == Int32(ParameterSize(args, envs))
    ensures ParameterSize(args, envs) + 0x100 < PG_SIZE ==>
              Accepts(ParameterSize(args, envs)) && Int32(Size(args)) == Size(args) && Int32(Size(envs)) == Size(envs)
  {
    var a, e, n := Size(args), Size(envs), 8 * (|args| + 1) + 8 * (|envs| + 1) + 8;
    hide Size, Int32;
    Int32Adds(a, Int32(e) + n);
    Int32Adds(e, a + n);
    Int32Small(a);
    Int32Small(e);
    Int32Small(a + e + n);
    Int32Small(a + e + n + 0x100);
  }

  lemma Int32Small(x: int)
    ensures 0 <= x < 0x8000_0000 ==> Int32(x) == x
  {
  }

  /** Rounding down with & ~7. */
  function Align8(x: nat): (r: nat)
    ensures r <= x < r + 8
  {
    8 * (x / 8)
  }

  function PaStart(args: StrList): nat
    requires Size(args) < PG_SIZE
  {
    Align8(USER_TOP - Size(args) - 8)
  }

  function PvStart(args: StrList, envs: StrList): nat
    requires Size(args) + Size(envs) < PG_SIZE
  {
    Align8(PaStart(args) - Size(envs) - 8)
  }

  function Envpp(args: StrList, envs: StrList): int
    requires Size(args) + Size(envs) < PG_SIZE
  {
    PvStart(args, envs) - 8 * (|envs| + 1)
  }

  function Argvp(args: StrList, envs: StrList): int
    requires Size(args) + Size(envs) < PG_SIZE
  {
    Envpp(args, envs) - 8 * (|args| + 1)
  }

  /** Whenever the assertion holds, argc, the two pointer arrays with their null
      terminators and the two string areas follow one another in the top page
      without overlap, and leave room below for _start's frame; the copies in the
      kernel buffer do the same. */
  lemma LayoutFits(args: StrList, envs: StrList)
    requires ParameterSize(args, envs) + 0x100 < PG_SIZE
    ensures USER_TOP - PG_SIZE + 24 <= Argvp(args, envs) - 8
    ensures Argvp(args, envs) + 8 * (|args| + 1) == Envpp(args, envs)
            && Envpp(args, envs) + 8 * (|envs| + 1) == PvStart(args, envs)
    ensures PvStart(args, envs) + Size(envs) + 8 <= PaStart(args) && PaStart(args) + Size(args) + 8 <= USER_TOP
    ensures var n := 8 * (|args| + |envs| + 2);
            8 * (|args| + 1) + 0x10 + 8 * (|envs| + 1) < n + 0x30 && n + 0x30 + Size(args) + 0x30 + Size(envs) < PG_SIZE
  {
    hide Align8, Size;
  }

  /** Every area starts on a multiple of 8. */
  lemma LayoutAligned(args: StrList, envs: StrList)
    requires ParameterSize(args, envs) + 0x100 < PG_SIZE
    ensures PaStart(args) % 8 == 0 && PvStart(args, envs) % 8 == 0 && Envpp(args, envs) % 8 == 0
            && Argvp(args, envs) % 8 == 0
  {
    hide Size;
    var k := (PaStart(args) - Size(envs) - 8) / 8;
    assert Envpp(args, envs) == 8 * (k - |envs| - 1);
    assert Argvp(args, envs) == 8 * (k - |envs| - |args| - 2);
  }

  // ---------------------------------------------------------------- the machine

  /** What _start expects at the stack pointer, all of it inside the stack page. */
  ghost predicate StackImage(m: Mem, sp: nat, args: StrList, envs: StrList) {
    && USER_TOP - PG_SIZE + 24 <= sp && sp + 8 <= USER_TOP
    && Mapped(m, sp, 4) && Num(m, sp, 4) == |args|
    && ListAt(m, sp + 8, args)
    && ListAt(m, sp + 8 + 8 * (|args| + 1), envs)
    && InPage(m, sp + 8, args) && InPage(m, sp + 8 + 8 * (|args| + 1), envs)
  }

  /** The array and the strings of a list lie in the stack page. */
  ghost predicate InPage(m: Mem, p: nat, ss: StrList)
    requires ListAt(m, p, ss)
  {
    && USER_TOP - PG_SIZE <= p && p + 8 * (|ss| + 1) <= USER_TOP
    && forall i :: 0 <= i < |ss| ==> TargetInPage(m, p + 8 * i, ss[i])
  }

  ghost predicate TargetInPage(m: Mem, p: nat, s: Str) {
    PointerAt(m, p, s) && USER_TOP - PG_SIZE <= Num(m, p, 8) && Num(m, p, 8) + |s| + 1 <= USER_TOP
  }

  lemma PackedIsList(m: Mem, p: nat, start: nat, ss: StrList)
    requires Packed(m, p, start, ss) && start > 0 && Mapped(m, p, 8 * |ss| + 8) && Num(m, p + 8 * |ss|, 8) == 0
    ensures ListAt(m, p, ss)
    ensures USER_TOP - PG_SIZE <= p && p + 8 * (|ss| + 1) <= USER_TOP
            && USER_TOP - PG_SIZE <= start && start + Size(ss) <= USER_TOP ==>
              InPage(m, p, ss)
  {
    hide StrAt, Num, Mapped, Offset;
    forall i | 0 <= i < |ss|
      ensures PointerAt(m, p + 8 * i, ss[i])
      ensures USER_TOP - PG_SIZE <= start && start + Size(ss) <= USER_TOP ==> TargetInPage(m, p + 8 * i, ss[i])
    {
      assert PackedAt(m, p + 8 * i, start + Offset(ss, i), ss[i]);
      OffsetMonotone(ss, i, |ss|);
    }
  }

  lemma PackedAtSame(m: Mem, k: Mem, p: nat, at: nat, s: Str)
    requires PackedAt(m, p, at, s) && Same(m, k, p, 8) && Same(m, k, at, |s| + 1)
    ensures PackedAt(k, p, at, s)
  {
    hide Num;
    NumSame(m, k, p, 8);
  }

  lemma SamePart(m: Mem, k: Mem, p: nat, n: nat, q: nat, l: nat)
    requires Same(m, k, p, n) && p <= q && q + l <= p + n
    ensures Same(m, k, q, l)
  {
  }

  lemma PackedSame(m: Mem, k: Mem, p: nat, start: nat, ss: StrList)
    requires Packed(m, p, start, ss)
    requires Same(m, k, p, 8 * |ss|) && Same(m, k, start, Size(ss))
    ensures Packed(k, p, start, ss)
  {
    hide PackedAt, Offset, Same;
    forall i | 0 <= i < |ss|
      ensures PackedAt(k, p + 8 * i, start + Offset(ss, i), ss[i])
    {
      assert PackedAt(m, p + 8 * i, start + Offset(ss, i), ss[i]);
      OffsetMonotone(ss, i, |ss|);
      SamePart(m, k, p, 8 * |ss|, p + 8 * i, 8);
      SamePart(m, k, start, Size(ss), start + Offset(ss, i), |ss[i]| + 1);
      PackedAtSame(m, k, p + 8 * i, start + Offset(ss, i), ss[i]);
    }
  }

  lemma ListSame(m: Mem, k: Mem, p: nat, ss: StrList)
    requires ListAt(m, p, ss)
    requires Extends(m, k)
    ensures ListAt(k, p, ss)
  {
    forall i | 0 <= i < |ss|
      ensures PointerAt(k, p + 8 * i, ss[i])
    {
      assert PointerAt(m, p + 8 * i, ss[i]);
      NumSame(m, k, p + 8 * i, 8);
    }
    NumSame(m, k, p + 8 * |ss|, 8);
  }

  /** Memory without one area, and without the two that copy_strlist writes. */
  function Outside(m: Mem, p: nat, n: nat): Mem {
    map a | a in m && !(p <= a < p + n) :: m[a]
  }

  function Beside(m: Mem, p: nat, n: nat, q: nat, l: nat): Mem {
    Outside(Outside(m, p, n), q, l)
  }

  ghost predicate Apart(p: nat, n: nat, q: nat, l: nat) {
    p + n <= q || q + l <= p
  }

  lemma PointerSame(m: Mem, k: Mem, p: nat, s: Str)
    requires PointerAt(m, p, s) && Extends(m, k)
    ensures PointerAt(k, p, s)
  {
    NumSame(m, k, p, 8);
  }

  lemma BesideChain(m: Mem, k: Mem, f: Mem, p: nat, n: nat, q: nat, l: nat)
    requires Extends(Outside(m, p, n), k) && Extends(Outside(k, q, l), f)
    ensures Extends(Beside(m, p, n, q, l), f)
    ensures Apart(p, n, q, l) ==> Same(k, f, p, n)
  {
  }

  /** After des_argv[i] = start the source string is still there, clear of its destination. */
  lemma StoredPointer(m: Mem, slot: nat, from: nat, at: nat, s: Str)
    requires Mapped(m, slot, 8) && at < TWO64 && PointerAt(Beside(m, slot, 8, at, |s| + 1), from, s)
    ensures var k := PutNum(m, slot, 8, at);
            && Mapped(k, slot, 8) && Num(k, slot, 8) == at && Extends(Outside(m, slot, 8), k)
            && Mapped(k, from, 8) && StrAt(k, Num(k, from, 8), s) && StrAt(Outside(k, at, |s| + 1), Num(k, from, 8), s)
  {
    var k := PutNum(m, slot, 8, at);
    assert Pow256(8) == TWO64;
    PutThenNum(m, slot, 8, at);
    var rest := Beside(m, slot, 8, at, |s| + 1);
    var kept := Outside(k, at, |s| + 1);
    assert Extends(rest, kept) && Extends(kept, k);
    hide PutNum, Num, Beside, Outside;
    PointerSame(rest, kept, from, s);
    PointerSame(kept, k, from, s);
    NumSame(kept, k, from, 8);
  }

  lemma ListEnds(m: Mem, p: nat, ss: StrList, i: nat)
    requires ListAt(m, p, ss) && i <= |ss|
    ensures Mapped(m, p + 8 * i, 8)
    ensures Num(m, p + 8 * i, 8) == 0 <==> i == |ss|
    ensures i < |ss| ==> PointerAt(m, p + 8 * i, ss[i])
  {
    assert i < |ss| ==> PointerAt(m, p + 8 * i, ss[i]);
  }

  lemma StillMapped(m: Mem, k: Mem, p: nat, n: nat)
    requires Mapped(m, p, n) && k.Keys == m.Keys
    ensures Mapped(k, p, n)
  {
    forall a: nat | p <= a < p + n ensures a in k { assert a in m.Keys; }
  }

  lemma BesideWider(m: Mem, k: Mem, p: nat, n: nat, q: nat, l: nat, p': nat, n': nat, q': nat, l': nat)
    requires p <= p' && p' + n' <= p + n && q <= q' && q' + l' <= q + l
    requires Extends(Beside(m, p, n, q, l), k)
    ensures Extends(Beside(m, p, n, q, l), Beside(k, p', n', q', l'))
  {
  }

  /** copy_strlist has room for its pointers and its strings. */
  ghost predicate Room(m: Mem, des: nat, start: nat, ss: StrList) {
    && Mapped(m, des, 8 * |ss|) && Mapped(m, start, Size(ss)) && start + Size(ss) <= TWO64
    && Apart(des, 8 * |ss|, start, Size(ss))
  }

  /** All memory but what copy_strlist writes. */
  function Target(m: Mem, des: nat, start: nat, ss: StrList): Mem {
    Beside(m, des, 8 * |ss|, start, Size(ss))
  }

  lemma TargetExtends(m: Mem, des: nat, start: nat, ss: StrList)
    ensures Extends(Target(m, des, start, ss), m) && Offset(ss, 0) == 0
  {
  }

  /** Before turn i the list is still there, its slot and its place are free. */
  lemma SourceKept(m: Mem, k: Mem, des: nat, src: nat, start: nat, ss: StrList, i: nat)
    requires i <= |ss| && Room(m, des, start, ss) && ListAt(Target(m, des, start, ss), src, ss)
    requires k.Keys == m.Keys && Extends(Target(m, des, start, ss), k)
    ensures Apart(des, 8 * |ss|, start, Size(ss))
    ensures Mapped(k, src + 8 * i, 8) && (Num(k, src + 8 * i, 8) == 0 <==> i == |ss|)
    ensures i < |ss| ==>
              var at := start + Offset(ss, i);
              && Mapped(k, des + 8 * i, 8) && Mapped(k, at, |ss[i]| + 1) && at < TWO64
                 && Apart(des + 8 * i, 8, at, |ss[i]| + 1)
              && PointerAt(Beside(k, des + 8 * i, 8, at, |ss[i]| + 1), src + 8 * i, ss[i])
              && Offset(ss, i + 1) == Offset(ss, i) + |ss[i]| + 1
  {
    var rest := Target(m, des, start, ss);
    hide ListAt, Num, PointerAt;
    ListEnds(rest, src, ss, i);
    NumSame(rest, k, src + 8 * i, 8);
    if i < |ss| {
      var at := start + Offset(ss, i);
      OffsetMonotone(ss, i, |ss|);
      BesideWider(m, k, des, 8 * |ss|, start, Size(ss), des + 8 * i, 8, at, |ss[i]| + 1);
      PointerSame(rest, Beside(k, des + 8 * i, 8, at, |ss[i]| + 1), src + 8 * i, ss[i]);
      StillMapped(m, k, des, 8 * |ss|);
      StillMapped(m, k, start, Size(ss));
    }
  }

  lemma TargetKept(m: Mem, k: Mem, f: Mem, des: nat, start: nat, ss: StrList, i: nat)
    requires i < |ss| && Extends(Target(m, des, start, ss), k)
    requires Extends(Beside(k, des + 8 * i, 8, start + Offset(ss, i), |ss[i]| + 1), f)
    ensures Extends(Target(m, des, start, ss), f)
  {
    OffsetMonotone(ss, i, |ss|);
    BesideWider(m, k, des, 8 * |ss|, start, Size(ss), des + 8 * i, 8, start + Offset(ss, i), |ss[i]| + 1);
  }

  /** The strings copied so far. */
  ghost predicate PackedUpTo(m: Mem, p: nat, start: nat, ss: StrList, n: nat)
    requires n <= |ss|
  {
    forall i :: 0 <= i < n ==> PackedAt(m, p + 8 * i, start + Offset(ss, i), ss[i])
  }

  lemma BesideSame(m: Mem, k: Mem, p: nat, n: nat, q: nat, l: nat, r: nat, c: nat)
    requires Extends(Beside(m, p, n, q, l), k) && Apart(r, c, p, n) && Apart(r, c, q, l)
    ensures Same(m, k, r, c)
  {
    forall a: nat | r <= a < r + c && a in m ensures a in k && k[a] == m[a] { assert a in Beside(m, p, n, q, l); }
  }

  lemma PackedOneMore(m: Mem, k: Mem, p: nat, start: nat, ss: StrList, n: nat)
    requires n < |ss| && PackedUpTo(m, p, start, ss, n) && Apart(p, 8 * |ss|, start, Size(ss))
    requires Extends(Beside(m, p + 8 * n, 8, start + Offset(ss, n), |ss[n]| + 1), k)
    requires PackedAt(k, p + 8 * n, start + Offset(ss, n), ss[n])
    ensures PackedUpTo(k, p, start, ss, n + 1)
  {
    hide PackedAt, Offset, Same, Extends, Beside;
    OffsetMonotone(ss, n, |ss|);
    forall i | 0 <= i < n
      ensures PackedAt(k, p + 8 * i, start + Offset(ss, i), ss[i])
    {
      OffsetMonotone(ss, i, n);
      BesideSame(m, k, p + 8 * n, 8, start + Offset(ss, n), |ss[n]| + 1, p + 8 * i, 8);
      BesideSame(m, k, p + 8 * n, 8, start + Offset(ss, n), |ss[n]| + 1, start + Offset(ss, i), |ss[i]| + 1);
      PackedAtSame(m, k, p + 8 * i, start + Offset(ss, i), ss[i]);
    }
  }

  ghost predicate Extends(m: Mem, k: Mem) {
    forall a :: a in m ==> a in k && k[a] == m[a]
  }

  // ---------------------------------------------------------------- pages

  predicate OnPage(page: nat, a: nat) {
    page <= a < page + PG_SIZE
  }

  function Only(m: Mem, page: nat): Mem {
    map a | a in m && OnPage(page, a) :: m[a]
  }

  function ZeroPage(page: nat): Mem {
    map a: nat | page <= a < page + PG_SIZE && OnPage(page, a) :: 0
  }

  ghost predicate ZeroAt(m: Mem, p: nat, n: nat) {
    forall a: nat :: p <= a < p + n ==> a in m && m[a] == 0
  }

  lemma {:induction false} ZeroBytes(b: seq<Byte>)
    requires forall i :: 0 <= i < |b| ==> b[i] == 0
    ensures FromBytes(b) == 0
  {
    if b != [] { ZeroBytes(b[1..]); }
  }

  /** The areas of a list lie in one page and do not meet, the closing null included. */
  ghost predicate Placed(page: nat, des: nat, start: nat, ss: StrList) {
    && page <= des && des + 8 * |ss| + 8 <= page + PG_SIZE
    && page <= start && start + Size(ss) <= page + PG_SIZE
    && Apart(des, 8 * |ss| + 8, start, Size(ss))
    && page + PG_SIZE <= TWO64 && start > 0
  }

  /** Packed in a page that was zero, a list is closed and can be read there alone. */
  lemma PlacedIsList(m: Mem, page: nat, des: nat, start: nat, ss: StrList)
    requires Placed(page, des, start, ss) && Mapped(m, page, PG_SIZE)
    requires Packed(m, des, start, ss) && ZeroAt(m, des + 8 * |ss|, 8)
    ensures ListAt(m, des, ss) && ListAt(Only(m, page), des, ss)
    ensures page == USER_TOP - PG_SIZE ==> InPage(m, des, ss)
  {
    hide Packed, PackedAt, Offset, ListAt, InPage;
    var k := Only(m, page);
    PackedSame(m, k, des, start, ss);
    ZeroBytes(seq(8, i requires 0 <= i < 8 => m[des + 8 * |ss| + i]));
    NumSame(m, k, des + 8 * |ss|, 8);
    hide Only, Num;
    PackedIsList(m, des, start, ss);
    PackedIsList(k, des, start, ss);
  }

  /** What copying a second list leaves of the first. */
  lemma PlacedKept(m: Mem, k: Mem, page: nat, des: nat, start: nat, ss: StrList, des': nat, start': nat, tt: StrList)
    requires Placed(page, des, start, ss) && Packed(m, des, start, ss) && ZeroAt(m, des + 8 * |ss|, 8)
    requires Extends(Target(m, des', start', tt), k)
    requires Apart(des, 8 * |ss| + 8, des', 8 * |tt|) && Apart(des, 8 * |ss| + 8, start', Size(tt))
    requires Apart(start, Size(ss), des', 8 * |tt|) && Apart(start, Size(ss), start', Size(tt))
    ensures Packed(k, des, start, ss) && ZeroAt(k, des + 8 * |ss|, 8)
  {
    hide Packed, Offset;
    assert Same(m, k, des, 8 * |ss| + 8) && Same(m, k, start, Size(ss));
    PackedSame(m, k, des, start, ss);
  }

  /** Where exec keeps the two lists in its kernel buffer. */
  function KernelStart(kbuf: nat, args: StrList, envs: StrList): nat {
    kbuf + 8 * (|args| + |envs| + 2) + 0x30
  }

  function KernelEnvpp(kbuf: nat, args: StrList): nat {
    kbuf + 8 * (|args| + 1) + 0x10
  }

  function KernelEnvStart(kbuf: nat, args: StrList, envs: StrList): nat {
    KernelStart(kbuf, args, envs) + Size(args) + 0x30
  }

  /** Both lists are in the buffer and need no byte outside it. */
  ghost predicate Saved(m: Mem, kbuf: nat, args: StrList, envs: StrList) {
    Mapped(m, kbuf, PG_SIZE) && ListAt(Only(m, kbuf), kbuf, args)
      && ListAt(Only(m, kbuf), KernelEnvpp(kbuf, args), envs)
  }

  lemma KernelPlaced(kbuf: nat, args: StrList, envs: StrList)
    requires ParameterSize(args, envs) + 0x100 < PG_SIZE && 0 < kbuf && kbuf + PG_SIZE <= TWO64
    ensures Placed(kbuf, kbuf, KernelStart(kbuf, args, envs), args)
    ensures Placed(kbuf, KernelEnvpp(kbuf, args), KernelEnvStart(kbuf, args, envs), envs)
    ensures Separate(kbuf, KernelStart(kbuf, args, envs), args, KernelEnvpp(kbuf, args),
            KernelEnvStart(kbuf, args, envs), envs)
  {
    hide Size;
  }

  lemma UserPlaced(args: StrList, envs: StrList)
    requires ParameterSize(args, envs) + 0x100 < PG_SIZE
    ensures Argvp(args, envs) >= 8 && Envpp(args, envs) >= 0
    ensures Placed(USER_TOP - PG_SIZE, Argvp(args, envs), PaStart(args), args)
    ensures Placed(USER_TOP - PG_SIZE, Envpp(args, envs), PvStart(args, envs), envs)
    ensures Separate(Envpp(args, envs), PvStart(args, envs), envs, Argvp(args, envs), PaStart(args), args)
  {
    LayoutFits(args, envs);
    hide Size, PaStart, PvStart, Argvp, Envpp;
  }

  /** The areas of one list meet no area of the other. */
  ghost predicate Separate(des: nat, start: nat, ss: StrList, des': nat, start': nat, tt: StrList) {
    && Apart(des, 8 * |ss| + 8, des', 8 * |tt| + 8) && Apart(des, 8 * |ss| + 8, start', Size(tt))
    && Apart(start, Size(ss), des', 8 * |tt| + 8) && Apart(start, Size(ss), start', Size(tt))
  }

  lemma BeforeCopy(m: Mem, lists: Mem, page: nat, des: nat, src: nat, start: nat, ss: StrList)
    requires Extends(ZeroPage(page), m) && Extends(lists, m) && (forall a :: a in lists ==> !OnPage(page, a))
    requires ListAt(lists, src, ss) && Placed(page, des, start, ss)
    ensures Mapped(m, page, PG_SIZE) && ZeroAt(m, des + 8 * |ss|, 8) && ListAt(Target(m, des, start, ss), src, ss)
  {
    hide ListAt, Size;
    forall a: nat | OnPage(page, a) ensures a in m && m[a] == 0 { assert a in ZeroPage(page); }
    assert Extends(lists, Target(m, des, start, ss));
    ListSame(lists, Target(m, des, start, ss), src, ss);
  }

  lemma BetweenCopies(m: Mem, k: Mem, lists: Mem, page: nat, des: nat, start: nat, ss: StrList, des': nat, src': nat,
      start': nat, tt: StrList)
    requires Extends(ZeroPage(page), m) && Extends(lists, m) && (forall a :: a in lists ==> !OnPage(page, a))
    requires Placed(page, des, start, ss) && Placed(page, des', start', tt)
             && Separate(des, start, ss, des', start', tt)
    requires k.Keys == m.Keys && Extends(Target(m, des, start, ss), k) && ListAt(lists, src', tt)
    ensures Mapped(k, page, PG_SIZE) && ZeroAt(k, des' + 8 * |tt|, 8) && ListAt(Target(k, des', start', tt), src', tt)
  {
    hide ListAt, Size;
    forall a: nat | OnPage(page, a) ensures a in m && a in k && m[a] == 0 { assert a in ZeroPage(page); }
    forall a: nat | des' + 8 * |tt| <= a < des' + 8 * |tt| + 8 ensures a in k && k[a] == 0 {
      assert OnPage(page, a) && a in Target(m, des, start, ss);
    }
    forall a | a in lists ensures a in Target(k, des', start', tt) && k[a] == lists[a] {
      assert a in Target(m, des, start, ss);
    }
    ListSame(lists, Target(k, des', start', tt), src', tt);
  }

  lemma AfterCopies(m: Mem, k: Mem, f: Mem, page: nat, des: nat, start: nat, ss: StrList, des': nat, start': nat,
      tt: StrList)
    requires Extends(ZeroPage(page), m)
    requires Placed(page, des, start, ss) && Placed(page, des', start', tt)
             && Separate(des, start, ss, des', start', tt)
    requires k.Keys == m.Keys && Extends(Target(m, des, start, ss), k)
    requires f.Keys == k.Keys && Extends(Target(k, des', start', tt), f)
    requires Packed(k, des, start, ss) && ZeroAt(k, des + 8 * |ss|, 8)
    ensures forall a :: a in f && !OnPage(page, a) ==> a in m && f[a] == m[a]
    ensures Packed(f, des, start, ss) && ZeroAt(f, des + 8 * |ss|, 8)
  {
    hide Size, Packed;
    forall a | a in f && !OnPage(page, a) ensures a in m && f[a] == m[a] {
      assert a in Target(m, des, start, ss) && a in Target(k, des', start', tt);
    }
    PlacedKept(k, f, page, des, start, ss, des', start', tt);
  }

  lemma ListSaved(m: Mem, page: nat, kbuf: nat, args: StrList, envs: StrList)
    requires Saved(m, kbuf, args, envs) && kbuf >= page + PG_SIZE
    ensures var rest := Only(m, kbuf);
            Extends(rest, m) && (forall a :: a in rest ==> !OnPage(page, a))
  {
  }

  /** switch_mm: the kernel half stays, the user half is new and holds one zero page. */
  function Switched(m: Mem): Mem {
    (map a | a in m && a >= USER_TOP :: m[a]) + ZeroPage(USER_TOP - PG_SIZE)
  }

  lemma SavedOver(m: Mem, kbuf: nat, args: StrList, envs: StrList)
    requires Saved(m, kbuf, args, envs) && kbuf >= USER_TOP
    ensures Saved(Switched(m), kbuf, args, envs) && Extends(ZeroPage(USER_TOP - PG_SIZE), Switched(m))
  {
    assert Only(Switched(m), kbuf) == Only(m, kbuf);
  }

  /** Writing argc below the argument array leaves both lists alone. */
  lemma ArgcStored(m: Mem, args: StrList, envs: StrList)
    requires ParameterSize(args, envs) + 0x100 < PG_SIZE && Mapped(m, USER_TOP - PG_SIZE, PG_SIZE)
    requires Packed(m, Argvp(args, envs), PaStart(args), args) && ZeroAt(m, Argvp(args, envs) + 8 * |args|, 8)
    requires Packed(m, Envpp(args, envs), PvStart(args, envs), envs) && ZeroAt(m, Envpp(args, envs) + 8 * |envs|, 8)
    ensures Argvp(args, envs) >= 8
            && StackImage(PutNum(m, Argvp(args, envs) - 8, 4, |args|), Argvp(args, envs) - 8, args, envs)
  {
    hide Packed, Offset, Argvp, Envpp, PaStart, PvStart, ListAt, InPage, Num;
    LayoutFits(args, envs);
    UserPlaced(args, envs);
    var sp: nat, pa, pv := Argvp(args, envs) - 8, PaStart(args), PvStart(args, envs);
    var argvp: nat, envpp: nat := Argvp(args, envs), Envpp(args, envs);
    assert Pow256(4) == 0x1_0000_0000;
    PutThenNum(m, sp, 4, |args|);
    var k := PutNum(m, sp, 4, |args|);
    hide PutNum;
    assert Same(m, k, argvp, 8 * |args| + 8) && Same(m, k, envpp, 8 * |envs| + 8);
    assert Same(m, k, pa, Size(args)) && Same(m, k, pv, Size(envs));
    hide Size;
    PackedSame(m, k, argvp, pa, args);
    PackedSame(m, k, envpp, pv, envs);
    StillMapped(m, k, USER_TOP - PG_SIZE, PG_SIZE);
    PlacedIsList(k, USER_TOP - PG_SIZE, argvp, pa, args);
    PlacedIsList(k, USER_TOP - PG_SIZE, envpp, pv, envs);
  }

  /** exec's assertion fails, passes although its sum has wrapped, or the stack is laid. */
  datatype Outcome = Refused | Overrun | Built(sp: nat)

  class Machine {
    var bytes: Mem

    /** strlen. */
    method Strlen(p: nat, ghost s: Str) returns (n: nat)
      requires StrAt(bytes, p, s)
      ensures n == |s|
    {
      n := 0;
      while bytes[p + n] != 0
        invariant n <= |s|
        decreases |s| - n
      {
        n := n + 1;
      }
      if n < |s| { InsideIsNotNul(bytes, p, s, n); }
    }

    /** strncpy of the kernel's string library: at most `size` characters, then always a terminator. */
    method Strncpy(dest: nat, src: nat, size: nat, ghost s: Str)
      requires size <= |s| && Mapped(bytes, dest, size + 1)
      requires StrAt(Outside(bytes, dest, size + 1), src, s)
      modifies this
      ensures bytes.Keys == old(bytes.Keys) && Extends(Outside(old(bytes), dest, size + 1), bytes)
      ensures StrAt(bytes, dest, s[..size])
    {
      var i := 0;
      ghost var rest := Outside(bytes, dest, size + 1);
      while i < size
        invariant 0 <= i <= size && bytes.Keys == old(bytes.Keys)
        invariant Extends(rest, bytes)
        invariant forall j :: 0 <= j < i ==> bytes[dest + j] == s[j]
      {
        assert StrAt(bytes, src, s);
        assert src + i in rest && bytes[src + i] == s[i];
        var n := Strlen(src, s);
        if n <= i { break; }
        bytes := bytes[dest + i := bytes[src + i]];
        if bytes[dest + i] == 0 { break; }
        i := i + 1;
      }
      bytes := bytes[dest + i := 0];
    }

    /** get_strlist_size; `full` is the sum that int arithmetic may wrap. */
    method GetStrlistSize(p: nat, ghost ss: StrList) returns (size: int, full: nat)
      requires ListAt(bytes, p, ss)
      ensures size == Int32(Size(ss)) && full == Size(ss)
    {
      hide ListAt, Num, StrAt, Int32, Mapped;
      var i: nat := 0;
      size, full := 0, 0;
      ListEnds(bytes, p, ss, 0);
      Int32Zero();
      while Num(bytes, p + 8 * i, 8) != 0
        invariant 0 <= i <= |ss| && Mapped(bytes, p + 8 * i, 8) && (Num(bytes, p + 8 * i, 8) == 0 <==> i == |ss|)
        invariant size == Int32(Offset(ss, i)) && full == Offset(ss, i)
        decreases |ss| - i
      {
        ListEnds(bytes, p, ss, i);
        ListEnds(bytes, p, ss, i + 1);
        var n := Strlen(Num(bytes, p + 8 * i, 8), ss[i]);
        Int32Adds(Offset(ss, i), n + 1);
        size := Int32(size + n + 1);
        full := full + n + 1;
        i := i + 1;
      }
    }

    /** get_strlist_num. */
    method GetStrlistNum(p: nat, ghost ss: StrList) returns (i: nat)
      requires ListAt(bytes, p, ss)
      ensures i == |ss|
    {
      hide ListAt, Num, Mapped;
      i := 0;
      ListEnds(bytes, p, ss, 0);
      while Num(bytes, p + 8 * i, 8) != 0
        invariant 0 <= i <= |ss| && Mapped(bytes, p + 8 * i, 8) && (Num(bytes, p + 8 * i, 8) == 0 <==> i == |ss|)
        decreases |ss| - i
      {
        ListEnds(bytes, p, ss, i + 1);
        i := i + 1;
      }
    }

    /** One turn of copy_strlist's loop. */
    method CopyString(slot: nat, from: nat, at: nat, ghost s: Str) returns (len: nat)
      requires Mapped(bytes, slot, 8) && Mapped(bytes, at, |s| + 1) && at < TWO64 && Apart(slot, 8, at, |s| + 1)
      requires PointerAt(Beside(bytes, slot, 8, at, |s| + 1), from, s)
      modifies this
      ensures bytes.Keys == old(bytes.Keys) && Extends(Beside(old(bytes), slot, 8, at, |s| + 1), bytes)
      ensures PackedAt(bytes, slot, at, s) && len == |s|
    {
      hide Num, StrAt, PutNum, Pow256;
      ghost var m := bytes;
      StoredPointer(m, slot, from, at, s);
      bytes := PutNum(bytes, slot, 8, at);
      ghost var k := bytes;
      len := Strlen(Num(bytes, from, 8), s);
      assert s[..len] == s;
      Strncpy(at, Num(bytes, from, 8), len, s);
      BesideChain(m, k, bytes, slot, 8, at, |s| + 1);
      NumSame(k, bytes, slot, 8);
    }

    /** copy_strlist: an array of pointers at des and the strings packed from
        start; the null pointer that closes the array is not written. */
    method CopyStrlist(des: nat, src: nat, start: nat, ghost ss: StrList)
      requires Room(bytes, des, start, ss) && ListAt(Target(bytes, des, start, ss), src, ss)
      modifies this
      ensures bytes.Keys == old(bytes.Keys) && Extends(Target(old(bytes), des, start, ss), bytes)
      ensures Packed(bytes, des, start, ss)
    {
      hide PackedAt, PointerAt, ListAt, Num, Extends, Room, Target, Offset, Apart, Mapped, Beside;
      var i: nat, at: nat := 0, start;
      ghost var m := bytes;
      TargetExtends(m, des, start, ss);
      SourceKept(m, bytes, des, src, start, ss, 0);
      while Num(bytes, src + 8 * i, 8) != 0
        invariant 0 <= i <= |ss| && at == start + Offset(ss, i)
        invariant bytes.Keys == m.Keys && Extends(Target(m, des, start, ss), bytes)
        invariant Mapped(bytes, src + 8 * i, 8) && (Num(bytes, src + 8 * i, 8) == 0 <==> i == |ss|)
        invariant PackedUpTo(bytes, des, start, ss, i)
        decreases |ss| - i
      {
        ghost var k := bytes;
        SourceKept(m, k, des, src, start, ss, i);
        var len := CopyString(des + 8 * i, src + 8 * i, at, ss[i]);
        TargetKept(m, k, bytes, des, start, ss, i);
        PackedOneMore(k, bytes, des, start, ss, i);
        SourceKept(m, bytes, des, src, start, ss, i + 1);
        at := at + len + 1;
        i := i + 1;
      }
    }

    /** A list is copied into a page where its place is still zero. */
    method CopyInto(page: nat, des: nat, src: nat, start: nat, ghost ss: StrList)
      requires Placed(page, des, start, ss) && Mapped(bytes, page, PG_SIZE) && ZeroAt(bytes, des + 8 * |ss|, 8)
      requires ListAt(Target(bytes, des, start, ss), src, ss)
      modifies this
      ensures bytes.Keys == old(bytes.Keys) && Extends(Target(old(bytes), des, start, ss), bytes)
      ensures Packed(bytes, des, start, ss) && ZeroAt(bytes, des + 8 * |ss|, 8)
    {
      hide ListAt, Offset, Packed;
      ghost var m := bytes;
      CopyStrlist(des, src, start, ss);
      forall a: nat | des + 8 * |ss| <= a < des + 8 * |ss| + 8
        ensures a in bytes && bytes[a] == 0
      {
        assert a in Target(m, des, start, ss);
      }
    }

    /** Two lists are copied, one after the other, into a zero page. */
    method CopyBoth(page: nat, des: nat, src: nat, start: nat, ghost ss: StrList, des': nat, src': nat, start': nat,
        ghost tt: StrList, ghost lists: Mem)
      requires Extends(ZeroPage(page), bytes) && Extends(lists, bytes) && (forall a :: a in lists ==> !OnPage(page, a))
      requires ListAt(lists, src, ss) && ListAt(lists, src', tt)
      requires Placed(page, des, start, ss) && Placed(page, des', start', tt)
               && Separate(des, start, ss, des', start', tt)
      modifies this
      ensures bytes.Keys == old(bytes.Keys)
              && (forall a :: a in bytes && !OnPage(page, a) ==> bytes[a] == old(bytes[a]))
      ensures Packed(bytes, des, start, ss) && ZeroAt(bytes, des + 8 * |ss|, 8)
      ensures Packed(bytes, des', start', tt) && ZeroAt(bytes, des' + 8 * |tt|, 8)
    {
      hide ListAt, Packed, Size, Apart, Separate, Placed;
      ghost var m := bytes;
      BeforeCopy(m, lists, page, des, src, start, ss);
      CopyInto(page, des, src, start, ss);
      ghost var k := bytes;
      BetweenCopies(m, k, lists, page, des, start, ss, des', src', start', tt);
      CopyInto(page, des', src', start', tt);
      AfterCopies(m, k, bytes, page, des, start, ss, des', start', tt);
    }

    /** exec up to the point where the old address space goes away. */
    method SaveLists(kbuf: nat, argv: nat, envp: nat, arglistSize: nat, argvNum: nat, envpNum: nat, ghost args: StrList,
        ghost envs: StrList, ghost lists: Mem)
      requires arglistSize == Size(args) && argvNum == |args| + 1 && envpNum == |envs| + 1
      requires ListAt(lists, argv, args) && ListAt(lists, envp, envs)
      requires Extends(ZeroPage(kbuf), bytes) && Extends(lists, bytes) && (forall a :: a in lists ==> !OnPage(kbuf, a))
      requires USER_TOP <= kbuf && kbuf + PG_SIZE <= TWO64 && ParameterSize(args, envs) + 0x100 < PG_SIZE
      modifies this
      ensures Saved(bytes, kbuf, args, envs)
    {
      hide ListAt, Packed, Size, Apart, Separate, Placed, ParameterSize;
      KernelPlaced(kbuf, args, envs);
      ghost var m := bytes;
      var kstart := kbuf + (argvNum + envpNum) * 8 + 0x30;
      var kenvpp := kbuf + argvNum * 8 + 0x10;
      CopyBoth(kbuf, kbuf, argv, kstart, args, kenvpp, envp, kstart + arglistSize + 0x30, envs, lists);
      forall a: nat | OnPage(kbuf, a) ensures a in bytes { assert a in ZeroPage(kbuf) && a in m.Keys; }
      PlacedIsList(bytes, kbuf, kbuf, kstart, args);
      PlacedIsList(bytes, kbuf, kenvpp, kstart + arglistSize + 0x30, envs);
    }

    /** exec from there on: the stack of the new image. */
    method LayStack(kbuf: nat, arglistSize: nat, envlistSize: nat, argvNum: nat, envpNum: nat, ghost args: StrList,
        ghost envs: StrList) returns (sp: nat)
      requires arglistSize == Size(args) && envlistSize == Size(envs) && argvNum == |args| + 1 && envpNum == |envs| + 1
      requires Saved(bytes, kbuf, args, envs) && Extends(ZeroPage(USER_TOP - PG_SIZE), bytes)
      requires USER_TOP <= kbuf && ParameterSize(args, envs) + 0x100 < PG_SIZE
      modifies this
      ensures StackImage(bytes, sp, args, envs)
    {
      hide ListAt, Packed, Offset, Apart, Separate, Placed, StackImage, Align8;
      UserPlaced(args, envs);
      ghost var m := bytes;
      var paStart := Align8(USER_TOP - arglistSize - 8);
      var pvStart := Align8(paStart - envlistSize - 8);
      var envpp: nat := pvStart - envpNum * 8;
      var argvp: nat := envpp - argvNum * 8;
      var kenvpp := kbuf + argvNum * 8 + 0x10;
      ListSaved(m, USER_TOP - PG_SIZE, kbuf, args, envs);
      CopyBoth(USER_TOP - PG_SIZE, envpp, kenvpp, pvStart, envs, argvp, kbuf, paStart, args, Only(m, kbuf));
      forall a: nat | OnPage(USER_TOP - PG_SIZE, a) ensures a in bytes {
        assert a in ZeroPage(USER_TOP - PG_SIZE) && a in m.Keys;
      }
      ArgcStored(bytes, args, envs);
      sp := argvp - 8;
      bytes := PutNum(bytes, sp, 4, argvNum - 1);
    }

    /** exec's handling of its argument lists. */
    method BuildStack(argv: nat, envp: nat, kbuf: nat, ghost args: StrList, ghost envs: StrList) returns (r: Outcome)
      requires ListAt(Outside(bytes, kbuf, PG_SIZE), argv, args) && ListAt(Outside(bytes, kbuf, PG_SIZE), envp, envs)
      requires USER_TOP <= kbuf && kbuf + PG_SIZE <= TWO64
      modifies this
      ensures r == Refused <==> !Accepts(ParameterSize(args, envs))
      ensures r.Built? <==> ParameterSize(args, envs) + 0x100 < PG_SIZE
      ensures r.Built? ==> StackImage(bytes, r.sp, args, envs)
    {
      hide ListAt, Size, StackImage, Saved, Int32;
      SizesWrap(args, envs);
      ghost var lists := Outside(bytes, kbuf, PG_SIZE);
      ListSame(lists, bytes, argv, args);
      ListSame(lists, bytes, envp, envs);
      var arglistSize, argFull := GetStrlistSize(argv, args);
      var envlistSize, envFull := GetStrlistSize(envp, envs);
      var argvNum := GetStrlistNum(argv, args);
      var envpNum := GetStrlistNum(envp, envs);
      argvNum, envpNum := argvNum + 1, envpNum + 1;
      var parameterSize := Int32(arglistSize + envlistSize + argvNum * 8 + envpNum * 8 + 8);
      if Int32(parameterSize + 0x100) >= PG_SIZE { return Refused; }
      // from here a wrapped total sends the copies past the end of the buffer
      if argFull + envFull + argvNum * 8 + envpNum * 8 + 8 + 0x100 >= PG_SIZE { return Overrun; }
      bytes := bytes + ZeroPage(kbuf);
      SaveLists(kbuf, argv, envp, arglistSize, argvNum, envpNum, args, envs, lists);
      SavedOver(bytes, kbuf, args, envs);
      bytes := Switched(bytes);
      var sp := LayStack(kbuf, arglistSize, envlistSize, argvNum, envpNum, args, envs);
      r := Built(sp);
    }

    /** _start's decoding; its frame has moved the stack pointer down by 24. */
    method Start(rsp: nat, ghost args: StrList, ghost envs: StrList) returns (argc: nat, argv: nat, envp: nat)
      requires StackImage(bytes, rsp + 24, args, envs)
      ensures argc == |args|
      ensures ListAt(bytes, argv, args) && InPage(bytes, argv, args)
      ensures ListAt(bytes, envp, envs) && InPage(bytes, envp, envs)
    {
      hide ListAt, InPage;
      var pargc := rsp + 3 * 8;
      argc := Num(bytes, pargc, 4);
      argv := pargc + 8;
      envp := argv + (argc + 1) * 8;
    }

    /** From the caller's lists to those that main receives. */
    method ExecThenStart(argv: nat, envp: nat, kbuf: nat, ghost args: StrList, ghost envs: StrList)
      returns (r: Outcome, argc': nat, argv': nat, envp': nat)
      requires ListAt(Outside(bytes, kbuf, PG_SIZE), argv, args) && ListAt(Outside(bytes, kbuf, PG_SIZE), envp, envs)
      requires USER_TOP <= kbuf && kbuf + PG_SIZE <= TWO64
      modifies this
      ensures r == Refused <==> !Accepts(ParameterSize(args, envs))
      ensures r.Built? <==> ParameterSize(args, envs) + 0x100 < PG_SIZE
      ensures r.Built? ==> argc' == |args|
      ensures r.Built? ==> ListAt(bytes, argv', args) && InPage(bytes, argv', args)
      ensures r.Built? ==> ListAt(bytes, envp', envs) && InPage(bytes, envp', envs)
    {
      hide ListAt, ParameterSize, InPage, Num, Accepts;
      r := BuildStack(argv, envp, kbuf, args, envs);
      argc', argv', envp' := 0, 0, 0;
      if r.Built? { argc', argv', envp' := Start(r.sp - 24, args, envs); }
    }
  }
}
