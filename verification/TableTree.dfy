/** Page-table pages in physical memory. `node` names the frame of every table:
    Key(p, l, n) is the level-l table of process p whose pages have prefix n. The
    invariant says that each slot holds exactly the frame `node` names, so the
    user half of every process is a tree whose pages alias nothing. */
module TableTree {
  import opened Basics
  import opened CowMachine
  import opened Hardware

  const USER_SLOTS: nat := 256   // entries of a directory below 0x800000000000

  datatype Key = Key(p: nat, level: nat, n: nat)
  {
    function Child(i: nat): Key { Key(p, level + 1, n * 512 + i) }
    function Parent(): Key requires level > 0 { Key(p, level - 1, n / 512) }
  }

  datatype Mm = Mm(pgd: nat, vmas: seq<Vma>, heap: nat)

  /** `kpgd` is the frame of the kernel's own directory, which alloc_pgd copies. */
  datatype Image = Image(ram: seq<Page>, mms: map<nat, Mm>, ref: seq<int>, kpgd: nat,
                         node: map<Key, nat>, kernel: set<nat>, data: set<nat>)

  // ---------------------------------------------------------------- entries

  /** PGD_P | PGD_RW | PGD_US and its equals at the other levels. */
  const TABLE_FLAGS: nat := 7

  const SELF_REF_INDEX: nat := 0x1fe
  const SELF_FLAGS: nat := 3   // PGD_P | PGD_RW

  /** A page-aligned physical address OR-ed with flag bits below 12. */
  function Entry(frame: nat, flags: nat): Word
    requires frame < FRAMES && flags < PG_SIZE
  {
    frame * PG_SIZE + flags
  }

  /** PTE_P | PTE_US with PTE_RW and PTE_COW as the entry says. */
  function PteWord(e: Pte): Word
    requires e.frame < FRAMES
  {
    Entry(e.frame, 5 + (if e.writable then 2 else 0) + (if e.cow then 512 else 0))
  }

  function FrameOf(w: Word): nat { w / PG_SIZE }

  function PteOf(w: Word): Pte {
    Pte(FrameOf(w), w / 2 % 2 == 1, w / 512 % 2 == 1)
  }

  lemma EntryRoundTrip(frame: nat, flags: nat)
    requires frame < FRAMES && flags < PG_SIZE
    ensures FrameOf(Entry(frame, flags)) == frame && (flags > 0 ==> Entry(frame, flags) > 0)
  {
  }

  lemma FlagBits(frame: nat, flags: nat)
    requires frame < FRAMES && flags < PG_SIZE
    ensures Entry(frame, flags) / 2 == frame * 2048 + flags / 2
    ensures Entry(frame, flags) / 4 == frame * 1024 + flags / 4
    ensures Entry(frame, flags) / 128 == frame * 32 + flags / 128
    ensures Entry(frame, flags) / 512 == frame * 8 + flags / 512
  {
  }

  lemma Halves(n: nat, b: nat)
    requires b < 2
    ensures (2 * n + b) % 2 == b
  {
  }

  lemma Parity(n: nat, low: nat)
    ensures (2 * n + low) % 2 == low % 2
  {
  }

  lemma EntryFrame(frame: nat, flags: nat)
    requires frame < FRAMES && flags < PG_SIZE
    ensures Physical(Entry(frame, flags)) == frame && Entry(frame, flags) == 2 * (frame * 2048) + flags
  {
  }

  /** What the processor reads in an entry is what was put there. */
  lemma EntryBits(frame: nat, flags: nat)
    requires frame < FRAMES && flags < PG_SIZE
    ensures var w := Entry(frame, flags);
            && Physical(w) == frame && w % 2 == flags % 2 && w / 2 % 2 == flags / 2 % 2
            && w / 4 % 2 == flags / 4 % 2 && w / 128 % 2 == flags / 128 % 2
  {
    hide Entry, Physical;
    EntryFrame(frame, flags);
    FlagBits(frame, flags);
    Parity(frame * 2048, flags);
    Parity(frame * 1024, flags / 2);
    Parity(frame * 512, flags / 4);
    Parity(frame * 16, flags / 128);
  }

  lemma PteRoundTrip(e: Pte)
    requires e.frame < FRAMES
    ensures PteOf(PteWord(e)) == e && PteWord(e) != 0
    ensures PresentBit(PteWord(e)) && UserBit(PteWord(e)) && (WriteBit(PteWord(e)) <==> e.writable)
    ensures Physical(PteWord(e)) == e.frame
  {
    hide Entry, FrameOf, Physical;
    var w, c := if e.writable then 1 else 0, if e.cow then 1 else 0;
    var flags := 5 + 2 * w + 512 * c;
    EntryRoundTrip(e.frame, flags);
    EntryBits(e.frame, flags);
    FlagBits(e.frame, flags);
    assert flags / 2 == 2 * (1 + 128 * c) + w && flags / 512 == c && flags / 4 == 2 * (64 * c) + 1;
    Halves(e.frame * 1024 + 1 + 128 * c, w);
    Halves(e.frame * 4, c);
  }

  // ---------------------------------------------------------------- indices

  function PgdOff(v: nat): nat { v / 0x800_0000 % 512 }
  function PudOff(v: nat): nat { v / 0x4_0000 % 512 }
  function PmdOff(v: nat): nat { v / 512 % 512 }
  function PteOff(v: nat): nat { v % 512 }

  function PudKey(p: nat, v: nat): Key { Key(p, 1, v / 0x800_0000) }
  function PmdKey(p: nat, v: nat): Key { Key(p, 2, v / 0x4_0000) }
  function PteKey(p: nat, v: nat): Key { Key(p, 3, v / 512) }

  lemma KeysFollow(p: nat, v: nat)
    requires v < USER_PAGES
    ensures PudKey(p, v) == Key(p, 0, 0).Child(PgdOff(v)) && PgdOff(v) < USER_SLOTS
    ensures PmdKey(p, v) == PudKey(p, v).Child(PudOff(v))
    ensures PteKey(p, v) == PmdKey(p, v).Child(PmdOff(v))
    ensures PteKey(p, v).Parent() == PmdKey(p, v) && PmdKey(p, v).Parent() == PudKey(p, v)
    ensures PudKey(p, v).Parent() == Key(p, 0, 0)
  {
  }

  // ---------------------------------------------------------------- the invariant

  ghost predicate Sizes(m: Image) {
    |m.ram| == FRAMES && |m.ref| == FRAMES
  }

  /** Frames in use have references and one role each. */
  ghost predicate Owned(m: Image)
    requires Sizes(m)
  {
    && m.kernel !! m.data
    && (forall f :: f in m.kernel || f in m.data ==> f < FRAMES && m.ref[f] >= 1)
    && (forall k :: k in m.node ==> m.node[k] in m.kernel)
    && (forall j, k :: j in m.node && k in m.node && m.node[j] == m.node[k] ==> j == k)
  }

  ghost predicate KeyOk(m: Image, k: Key) {
    k.p in m.mms && k.level <= 3 && (k.level == 0 ==> k.n == 0)
  }

  ghost predicate Rooted(m: Image) {
    && (forall k :: k in m.node ==> KeyOk(m, k))
    && (forall p :: p in m.mms ==> Key(p, 0, 0) in m.node && m.node[Key(p, 0, 0)] == m.mms[p].pgd)
  }

  /** Tables exist only below existing tables. */
  ghost predicate Closed(m: Image) {
    forall k: Key :: k in m.node && k.level > 0 ==> k.Parent() in m.node
  }

  /** The kernel's directory maps no user page, lets user mode in nowhere, and is no
      process's table. */
  ghost predicate Template(m: Image)
    requires Sizes(m) && Owned(m)
  {
    && m.kpgd in m.kernel
    && (forall k :: k in m.node ==> m.node[k] != m.kpgd)
    && (forall i :: 0 <= i < USER_SLOTS ==> m.ram[m.kpgd][i] == 0)
    && (forall i :: USER_SLOTS <= i < WORDS ==> !UserBit(m.ram[m.kpgd][i]))
  }

  /** The kernel half of the directory in frame f, as alloc_pgd leaves it: a copy of
      the kernel's own, but for slot 0x1fe, which refers to the directory itself. */
  ghost predicate KernelHalfOf(m: Image, f: nat) {
    && f < FRAMES && f < |m.ram| && m.kpgd < |m.ram|
    && forall i :: USER_SLOTS <= i < WORDS ==>
         m.ram[f][i] == if i == SELF_REF_INDEX then Entry(f, SELF_FLAGS) else m.ram[m.kpgd][i]
  }

  /** Every address space contains the kernel. */
  ghost predicate KernelSlots(m: Image)
    requires Sizes(m) && Owned(m)
  {
    forall k :: k in m.node && k.level == 0 ==> KernelHalfOf(m, m.node[k])
  }

  /** The slots of a table that belong to user space. */
  predicate UserSlot(k: Key, i: nat) {
    i < 512 && (k.level == 0 ==> i < USER_SLOTS)
  }

  /** Upper tables: a slot is zero or names the table `node` has below it. */
  ghost predicate Linked(m: Image)
    requires Sizes(m) && Owned(m)
  {
    forall k: Key, i: nat {:trigger k.Child(i)} :: k in m.node && k.level < 3 && UserSlot(k, i) ==>
      m.ram[m.node[k]][i] == if k.Child(i) in m.node then Entry(m.node[k.Child(i)], TABLE_FLAGS) else 0
  }

  ghost predicate LeafOk(m: Image, w: Word) {
    w == 0 || (PteOf(w).frame in m.data && PteOf(w).frame < FRAMES && w == PteWord(PteOf(w)))
  }

  /** Leaf tables: a slot is zero or a well-formed entry for a data frame. */
  ghost predicate Leaves(m: Image)
    requires Sizes(m) && Owned(m)
  {
    forall k, i {:trigger m.ram[m.node[k]][i]} :: k in m.node && k.level == 3 && 0 <= i < 512 ==>
      LeafOk(m, m.ram[m.node[k]][i])
  }

  ghost predicate Good(m: Image) {
    Sizes(m) && Owned(m) && Rooted(m) && KernelSlots(m) && Closed(m) && Template(m) && Linked(m) && Leaves(m)
  }

  // ---------------------------------------------------------------- abstraction

  ghost function LeafWord(m: Image, p: nat, v: nat): Word
    requires Sizes(m) && Owned(m)
  {
    if PteKey(p, v) in m.node then m.ram[m.node[PteKey(p, v)]][PteOff(v)] else 0
  }

  ghost function PtOf(m: Image, p: nat): map<nat, Pte>
    requires Sizes(m) && Owned(m)
  {
    map v: nat | 0 <= v < USER_PAGES && LeafWord(m, p, v) != 0 :: PteOf(LeafWord(m, p, v))
  }

  ghost function ProcOf(m: Image, p: nat): Proc
    requires Sizes(m) && Owned(m) && p in m.mms
  {
    Proc(m.mms[p].vmas, m.mms[p].heap, PtOf(m, p))
  }

  /** The copy-on-write machine that a memory image represents. */
  ghost function Abs(m: Image): State
    requires Sizes(m) && Owned(m)
  {
    State(map p | p in m.mms :: ProcOf(m, p), m.ref, map f | f in m.data :: m.ram[f], m.kernel)
  }

  lemma ProcsAre(m: Image, procs: map<nat, Proc>)
    requires Sizes(m) && Owned(m) && m.mms.Keys == procs.Keys
    requires forall p :: p in procs ==> ProcOf(m, p) == procs[p]
    ensures Abs(m).procs == procs
  {
  }

  /** Same leaf words, same page map. */
  lemma SamePt(m: Image, n: Image, p: nat, q: nat)
    requires Sizes(m) && Owned(m) && Sizes(n) && Owned(n)
    requires forall v: nat :: LeafWord(n, q, v) == LeafWord(m, p, v)
    ensures PtOf(n, q) == PtOf(m, p)
  {
  }

  // ---------------------------------------------------------------- the walk

  /** The leaf table that a walk from directory `pgd` reaches for page v. */
  function WalkTable(ram: seq<Page>, pgd: nat, v: nat): Option<nat> {
    if pgd >= |ram| || ram[pgd][PgdOff(v)] == 0 then None
    else
      var pud := FrameOf(ram[pgd][PgdOff(v)]);
      if pud >= |ram| || ram[pud][PudOff(v)] == 0 then None
      else
        var pmd := FrameOf(ram[pud][PudOff(v)]);
        if pmd >= |ram| || ram[pmd][PmdOff(v)] == 0 then None
        else
          var pte := FrameOf(ram[pmd][PmdOff(v)]);
          if pte >= |ram| then None else Some(pte)
  }

  lemma SlotReads(m: Image, k: Key, i: nat)
    requires Good(m) && k in m.node && k.level < 3 && UserSlot(k, i)
    ensures m.node[k] < FRAMES
    ensures k.Child(i) !in m.node ==> m.ram[m.node[k]][i] == 0
    ensures k.Child(i) in m.node ==>
              && m.node[k.Child(i)] < FRAMES && m.ram[m.node[k]][i] == Entry(m.node[k.Child(i)], TABLE_FLAGS)
              && m.ram[m.node[k]][i] != 0 && FrameOf(m.ram[m.node[k]][i]) == m.node[k.Child(i)]
  {
    if k.Child(i) in m.node { EntryRoundTrip(m.node[k.Child(i)], TABLE_FLAGS); }
  }

  /** The tables are a tree: walking them is looking up the leaf. */
  lemma WalkFindsLeaf(m: Image, p: nat, v: nat)
    requires Good(m) && p in m.mms && v < USER_PAGES
    ensures WalkTable(m.ram, m.mms[p].pgd, v) == if PteKey(p, v) in m.node then Some(m.node[PteKey(p, v)]) else None
    ensures LeafWord(m, p, v) ==
            match WalkTable(m.ram, m.mms[p].pgd, v) case Some(t) => m.ram[t][PteOff(v)] case None => 0
  {
    KeysFollow(p, v);
    SlotReads(m, Key(p, 0, 0), PgdOff(v));
    if PudKey(p, v) in m.node {
      SlotReads(m, PudKey(p, v), PudOff(v));
      if PmdKey(p, v) in m.node {
        SlotReads(m, PmdKey(p, v), PmdOff(v));
      }
    }
  }

  // ---------------------------------------------------------------- the processor's walk

  /** The indices that the processor cuts out of an address in page v. */
  function Indices(v: nat): seq<nat> { [PgdOff(v), PudOff(v), PmdOff(v), PteOff(v)] }

  /** An entry for a table allows everything, so the walk goes on below it. */
  lemma TranslateTable(m: Image, k: Key, i: nat, rest: seq<nat>, user: bool, write: bool)
    requires Good(m) && k in m.node && k.level < 3 && UserSlot(k, i) && forall j :: 0 <= j < |rest| ==> rest[j] < WORDS
    ensures m.node[k] < FRAMES && (k.Child(i) in m.node ==> m.node[k.Child(i)] < FRAMES)
    ensures Translate(m.ram, m.node[k], [i] + rest, user, write)
            == if k.Child(i) in m.node then Translate(m.ram, m.node[k.Child(i)], rest, user, write) else Fault(false)
  {
    hide Linked, Leaves, Closed, Rooted, Template, KernelSlots, Entry, Physical;
    SlotReads(m, k, i);
    assert ([i] + rest)[1..] == rest;
    if k.Child(i) in m.node { EntryBits(m.node[k.Child(i)], TABLE_FLAGS); }
  }

  lemma TranslateLeaf(m: Image, p: nat, v: nat, user: bool, write: bool)
    requires Good(m) && PteKey(p, v) in m.node
    ensures m.node[PteKey(p, v)] < FRAMES
    ensures var w := LeafWord(m, p, v);
            Translate(m.ram, m.node[PteKey(p, v)], [PteOff(v)], user, write)
            == if w == 0 then Fault(false)
               else if write && !PteOf(w).writable then Fault(true)
               else To(PteOf(w).frame)
  {
    hide Linked, Closed, Rooted, Template, KernelSlots, PteOf, PteWord, Physical;
    var w := m.ram[m.node[PteKey(p, v)]][PteOff(v)];
    assert LeafOk(m, w);
    assert [PteOff(v)][1..] == [];
    if w != 0 { PteRoundTrip(PteOf(w)); }
  }

  /** What the copy-on-write machine says of a user-mode access. */
  ghost function Expected(s: State, p: nat, v: nat, write: bool): Translation
    requires p in s.procs
  {
    match Mmu(s, p, v, write)
    case Granted => To(s.procs[p].pt[v].frame)
    case NotPresent => Fault(false)
    case Violation => Fault(true)
  }

  /** In every reachable memory the processor's decision about a user-mode access,
      and the frame it reaches, are those of the copy-on-write machine. */
  lemma HardwareIsMmu(m: Image, p: nat, v: nat, write: bool)
    requires Good(m) && p in m.mms && v < USER_PAGES
    ensures p in Abs(m).procs
    ensures Translate(m.ram, m.mms[p].pgd, Indices(v), true, write) == Expected(Abs(m), p, v, write)
  {
    hide Linked, Leaves, Closed, Template, KernelSlots, PteOf, PgdOff, PudOff, PmdOff;
    KeysFollow(p, v);
    WalkBelow(m, p, v, [PteOff(v)], true, write);
    assert [PgdOff(v), PudOff(v), PmdOff(v)] + [PteOff(v)] == Indices(v);
    if PteKey(p, v) in m.node { TranslateLeaf(m, p, v, true, write); }
  }

  /** An entry of the kernel half of a process's directory. */
  lemma KernelSlotReads(m: Image, p: nat, i: nat)
    requires Good(m) && p in m.mms && USER_SLOTS <= i < WORDS
    ensures m.mms[p].pgd < |m.ram| && m.kpgd < |m.ram| && !UserBit(m.ram[m.mms[p].pgd][i])
    ensures i != SELF_REF_INDEX ==> m.ram[m.mms[p].pgd][i] == m.ram[m.kpgd][i]
  {
    hide Linked, Leaves, Closed, Entry, UserBit;
    var k := Key(p, 0, 0);
    assert KernelHalfOf(m, m.node[k]);
    SelfNotUser(m.node[k]);
  }

  /** Every process has the kernel in its address space, mapped as in the kernel's
      own directory. */
  lemma KernelShared(m: Image, p: nat, v: nat, write: bool)
    requires Good(m) && p in m.mms && USER_SLOTS <= PgdOff(v) != SELF_REF_INDEX
    ensures Translate(m.ram, m.mms[p].pgd, Indices(v), false, write)
            == Translate(m.ram, m.kpgd, Indices(v), false, write)
  {
    hide Good, Physical;
    KernelSlotReads(m, p, PgdOff(v));
  }

  /** User mode gets to no address of the kernel half: neither to the kernel nor,
      through slot 0x1fe, to its own tables. */
  lemma UserKeptOut(m: Image, p: nat, v: nat, write: bool)
    requires Good(m) && p in m.mms && USER_SLOTS <= PgdOff(v)
    ensures !Translate(m.ram, m.mms[p].pgd, Indices(v), true, write).To?
  {
    hide Good, Physical;
    KernelSlotReads(m, p, PgdOff(v));
  }

  lemma SelfNotUser(f: nat)
    requires f < FRAMES
    ensures !UserBit(Entry(f, SELF_FLAGS))
  {
    EntryBits(f, SELF_FLAGS);
  }

  /** Above every table of a page lie the others, up to the directory. */
  lemma Ancestors(m: Image, p: nat, v: nat)
    requires Good(m) && p in m.mms && v < USER_PAGES
    ensures Key(p, 0, 0) in m.node && m.node[Key(p, 0, 0)] == m.mms[p].pgd && m.mms[p].pgd < FRAMES
    ensures PteKey(p, v) in m.node ==> PmdKey(p, v) in m.node && m.node[PteKey(p, v)] < FRAMES
    ensures PmdKey(p, v) in m.node ==> PudKey(p, v) in m.node
  {
    hide Linked, Leaves, Template, KernelSlots;
    KeysFollow(p, v);
  }

  /** The first three indices of a page lead the processor to its leaf table. */
  lemma WalkBelow(m: Image, p: nat, v: nat, rest: seq<nat>, user: bool, write: bool)
    requires Good(m) && p in m.mms && v < USER_PAGES && forall j :: 0 <= j < |rest| ==> rest[j] < WORDS
    ensures m.mms[p].pgd < FRAMES && (PteKey(p, v) in m.node ==> m.node[PteKey(p, v)] < FRAMES)
    ensures Translate(m.ram, m.mms[p].pgd, [PgdOff(v), PudOff(v), PmdOff(v)] + rest, user, write)
            == if PteKey(p, v) in m.node then Translate(m.ram, m.node[PteKey(p, v)], rest, user, write)
               else Fault(false)
  {
    hide Good, Translate, PgdOff, PudOff, PmdOff, PudKey, PmdKey, PteKey;
    KeysFollow(p, v);
    Ancestors(m, p, v);
    var r2 := [PmdOff(v)] + rest;
    var r1 := [PudOff(v)] + r2;
    assert [PgdOff(v)] + r1 == [PgdOff(v), PudOff(v), PmdOff(v)] + rest;
    TranslateTable(m, Key(p, 0, 0), PgdOff(v), r1, user, write);
    if PudKey(p, v) in m.node {
      TranslateTable(m, PudKey(p, v), PudOff(v), r2, user, write);
      if PmdKey(p, v) in m.node {
        TranslateTable(m, PmdKey(p, v), PmdOff(v), rest, user, write);
      }
    }
  }

  /** The frame that the processor reaches for the kernel through a page's
      self-reference address, whose four indices are slot 0x1fe and the first
      three of the page's own; the slot must be writable to put_pte_entry_trick. */
  function TrickTable(ram: seq<Page>, pgd: nat, v: nat): Option<nat> {
    match Translate(ram, pgd, [SELF_REF_INDEX, PgdOff(v), PudOff(v), PmdOff(v)], false, true)
    case To(f) => Some(f)
    case _ => None
  }

  /** So get_pte_entry_trick and put_pte_entry_trick work on the table that an
      ordinary walk finds, at the page's own slot in it. */
  lemma TrickFindsLeaf(m: Image, p: nat, v: nat)
    requires Good(m) && p in m.mms && v < USER_PAGES
    ensures TrickTable(m.ram, m.mms[p].pgd, v) == WalkTable(m.ram, m.mms[p].pgd, v)
  {
    hide Linked, Leaves, Closed, Template, WalkTable, Entry, Physical, PgdOff, PudOff, PmdOff, PteOff;
    var k := Key(p, 0, 0);
    assert k in m.node && m.node[k] == m.mms[p].pgd && m.node[k] in m.kernel;
    EntryBits(m.node[k], SELF_FLAGS);
    var own := [PgdOff(v), PudOff(v), PmdOff(v)];
    assert [SELF_REF_INDEX, PgdOff(v), PudOff(v), PmdOff(v)][1..] == own == own + [];
    WalkBelow(m, p, v, [], false, true);
    WalkFindsLeaf(m, p, v);
  }
}
