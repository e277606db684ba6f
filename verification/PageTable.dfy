/** Sv39 page tables (section 4.4 of the RISC-V Privileged Architecture manual):
    three levels of 512-entry tables in physical memory, and the flat map from
    virtual to physical pages that they stand for. */
module PageTable {

  const PGSIZE: nat := 4096

  /** One beyond the highest virtual page number, MAXVA / PGSIZE. */
  const MAXVPN: nat := 0x400_0000

  /** Virtual pages of the trampoline and the trapframe, the top two. */
  const TRAMPOLINE: nat := 0x3ff_ffff
  const TRAPFRAME: nat := 0x3ff_fffe

  /** A physical page: 512 64-bit words. */
  type Page = s: seq<nat> | |s| == 512 witness seq(512, _ => 0)

  type Mem = map<nat, Page>

  function ZeroPage(): (p: Page)
    ensures forall i :: 0 <= i < 512 ==> p[i] == 0
  {
    seq(512, _ => 0)
  }

  // ----- Page-table entries -----------------------------------------------------

  /** PA2PTE(pa) | flags, for the page with number ppn. */
  function MakePte(ppn: nat, flags: nat): nat
    requires flags < 0x400
  {
    0x400 * ppn + flags
  }

  /** PTE2PA(pte), as a page number. */
  function PtePage(pte: nat): nat {
    pte / 0x400
  }

  function PteFlags(pte: nat): nat {
    pte % 0x400
  }

  /** pte & PTE_V */
  predicate PteValid(pte: nat) {
    pte % 2 == 1
  }

  /** pte & PTE_U */
  predicate PteUser(pte: nat) {
    pte / 16 % 2 == 1
  }

  /** pte & (PTE_R|PTE_W|PTE_X) is zero: the entry points to a lower table. */
  predicate PteTable(pte: nat) {
    pte / 2 % 8 == 0
  }

  function TablePte(ppn: nat): nat {
    MakePte(ppn, 1)
  }

  /** What the two macros put together they take apart. */
  lemma PteRoundTrip(ppn: nat, flags: nat)
    requires flags < 0x400
    ensures PtePage(MakePte(ppn, flags)) == ppn && PteFlags(MakePte(ppn, flags)) == flags
    ensures PteValid(MakePte(ppn, flags)) == PteValid(flags)
    ensures PteUser(MakePte(ppn, flags)) == PteUser(flags)
    ensures PteTable(MakePte(ppn, flags)) == PteTable(flags)
  {
    LowBits(ppn, flags);
    UserBit(ppn, flags);
    TableBits(ppn, flags);
  }

  lemma LowBits(ppn: nat, flags: nat)
    requires flags < 0x400
    ensures PtePage(MakePte(ppn, flags)) == ppn && PteFlags(MakePte(ppn, flags)) == flags
    ensures PteValid(MakePte(ppn, flags)) == PteValid(flags)
  {
  }

  lemma UserBit(ppn: nat, flags: nat)
    requires flags < 0x400
    ensures PteUser(MakePte(ppn, flags)) == PteUser(flags)
  {
    var q := flags / 16;
    Div16(64 * ppn + q, flags % 16);
    assert MakePte(ppn, flags) == 16 * (64 * ppn + q) + flags % 16;
    Mod2(ppn, q);
  }

  lemma TableBits(ppn: nat, flags: nat)
    requires flags < 0x400
    ensures PteTable(MakePte(ppn, flags)) == PteTable(flags)
  {
    var q := flags / 2;
    Div2(512 * ppn + q, flags % 2);
    assert MakePte(ppn, flags) == 2 * (512 * ppn + q) + flags % 2;
    Mod8(ppn, q);
  }

  lemma Div16(a: nat, r: nat)
    requires r < 16
    ensures (16 * a + r) / 16 == a
  {
  }

  lemma Div2(a: nat, r: nat)
    requires r < 2
    ensures (2 * a + r) / 2 == a
  {
  }

  lemma Mod2(a: nat, b: nat)
    ensures (64 * a + b) % 2 == b % 2
  {
  }

  lemma Mod8(a: nat, b: nat)
    ensures (512 * a + b) % 8 == b % 8
  {
  }

  lemma TablePteFacts(ppn: nat)
    ensures PteValid(TablePte(ppn)) && PteTable(TablePte(ppn)) && PtePage(TablePte(ppn)) == ppn
  {
    PteRoundTrip(ppn, 1);
  }

  // ----- Address arithmetic -------------------------------------------------------

  /** PX(level, va), va >> (12 + 9 * level) & 0x1ff */
  function Px(level: nat, va: nat): nat
    requires level <= 2
  {
    (if level == 0 then va / 0x1000 else if level == 1 then va / 0x20_0000 else va / 0x4000_0000) % 512
  }

  /** The three indices of an address below MAXVA in terms of its page number. */
  lemma PxOfPage(va: nat)
    requires va < PGSIZE * MAXVPN
    ensures
      var v := va / PGSIZE;
      Px(0, va) == v % 512 && Px(1, va) == v / 512 % 512 && Px(2, va) == v / 512 / 512
  {
  }

  /** Distinct page-aligned addresses below MAXVA differ in some index. */
  lemma PxInjective(a: nat, b: nat)
    requires a < PGSIZE * MAXVPN && b < PGSIZE * MAXVPN && a % PGSIZE == 0 && b % PGSIZE == 0
    requires Px(0, a) == Px(0, b) && Px(1, a) == Px(1, b) && Px(2, a) == Px(2, b)
    ensures a == b
  {
    PxOfPage(a);
    PxOfPage(b);
  }

  function PageRoundUp(sz: nat): nat {
    (sz + PGSIZE - 1) / PGSIZE
  }

  // ----- What a tree of tables stands for -------------------------------------------

  /** The tables of one address space and the mappings in them: `mid` by level-2
      index, `low` by page number / 512, `leaf` by page number. */
  datatype Shape = Shape(root: nat, mid: map<nat, nat>, low: map<nat, nat>, leaf: map<nat, nat>)

  function Entry(mem: Mem, table: nat, i: nat): nat
    requires i < 512
  {
    if table in mem then mem[table][i] else 0
  }

  function RootEntry(mem: Mem, sh: Shape, i: nat): nat
    requires i < 512
  {
    Entry(mem, sh.root, i)
  }

  function MidEntry(mem: Mem, sh: Shape, g: nat): nat
    requires g / 512 in sh.mid
  {
    Entry(mem, sh.mid[g / 512], g % 512)
  }

  function LowEntry(mem: Mem, sh: Shape, v: nat): nat
    requires v / 512 in sh.low
  {
    Entry(mem, sh.low[v / 512], v % 512)
  }

  ghost predicate WellShaped(sh: Shape) {
    && (forall i :: i in sh.mid ==> i < 512)
    && (forall g :: g in sh.low ==> g / 512 in sh.mid)
    && (forall v :: v in sh.leaf ==> v / 512 in sh.low && PteValid(sh.leaf[v]))
  }

  ghost predicate RootOk(mem: Mem, sh: Shape) {
    forall i :: 0 <= i < 512 ==>
      if i in sh.mid then RootEntry(mem, sh, i) == TablePte(sh.mid[i]) else !PteValid(RootEntry(mem, sh, i))
  }

  ghost predicate MidOk(mem: Mem, sh: Shape) {
    forall g :: 0 <= g && g / 512 in sh.mid ==>
      if g in sh.low then MidEntry(mem, sh, g) == TablePte(sh.low[g]) else !PteValid(MidEntry(mem, sh, g))
  }

  ghost predicate LowOk(mem: Mem, sh: Shape) {
    forall v :: 0 <= v && v / 512 in sh.low ==>
      if v in sh.leaf then LowEntry(mem, sh, v) == sh.leaf[v] else !PteValid(LowEntry(mem, sh, v))
  }

  /** The tables in memory hold exactly the tables and mappings of `sh`. */
  ghost predicate Repr(mem: Mem, sh: Shape) {
    WellShaped(sh) && RootOk(mem, sh) && MidOk(mem, sh) && LowOk(mem, sh)
  }

  // ----- Page ownership -------------------------------------------------------------

  /** A place where a physical page can be in use by an address space. */
  datatype Place = Root(r: nat) | Mid(r: nat, i: nat) | Low(r: nat, g: nat) | User(r: nat, v: nat)

  /** Free, held by the kernel outside any address space, or in one place. */
  datatype Use = Free | Held | In(place: Place)

  /** The page in a place, 0 if none. The trampoline and trapframe mappings do
      not own their pages. */
  function PlaceAt(pts: map<nat, Shape>, pl: Place): nat
    requires pl.r in pts
  {
    var sh := pts[pl.r];
    match pl
    case Root(r) => r
    case Mid(r, i) => if i in sh.mid then sh.mid[i] else 0
    case Low(r, g) => if g in sh.low then sh.low[g] else 0
    case User(r, v) => if v in sh.leaf && v < TRAPFRAME then PtePage(sh.leaf[v]) else 0
  }

  /** Every place holds a page that is its own, and every page said to be in a
      place is there. */
  ghost predicate OwnInv(pts: map<nat, Shape>, owner: map<nat, Use>) {
    && 0 !in owner
    && (forall r :: r in pts ==> pts[r].root == r && r != 0)
    && (forall pl: Place :: pl.r in pts && PlaceAt(pts, pl) != 0 ==>
          PlaceAt(pts, pl) in owner && owner[PlaceAt(pts, pl)] == In(pl))
    && (forall p :: p in owner && owner[p].In? ==> owner[p].place.r in pts && PlaceAt(pts, owner[p].place) == p)
    && (forall r, i :: r in pts && i in pts[r].mid ==> pts[r].mid[i] in owner)
    && (forall r, g :: r in pts && g in pts[r].low ==> pts[r].low[g] in owner)
    && (forall r, v :: r in pts && v in pts[r].leaf && v < TRAPFRAME ==> PtePage(pts[r].leaf[v]) in owner)
  }

  lemma RootFrame(mem: Mem, mem': Mem, sh: Shape, sh': Shape)
    requires RootOk(mem, sh) && sh'.root == sh.root && sh'.mid == sh.mid
    requires mem'.Keys == mem.Keys && (sh.root in mem ==> mem'[sh.root] == mem[sh.root])
    ensures RootOk(mem', sh')
  {
    forall i | 0 <= i < 512 ensures RootEntry(mem', sh', i) == RootEntry(mem, sh, i) { }
  }

  lemma MidFrame(mem: Mem, mem': Mem, sh: Shape, sh': Shape)
    requires MidOk(mem, sh) && sh'.mid == sh.mid && sh'.low == sh.low && mem'.Keys == mem.Keys
    requires forall i :: i in sh.mid && sh.mid[i] in mem ==> mem'[sh.mid[i]] == mem[sh.mid[i]]
    ensures MidOk(mem', sh')
  {
    forall g | 0 <= g && g / 512 in sh.mid ensures MidEntry(mem', sh', g) == MidEntry(mem, sh, g) { }
  }

  lemma LowFrame(mem: Mem, mem': Mem, sh: Shape, sh': Shape)
    requires LowOk(mem, sh) && sh'.low == sh.low && sh'.leaf == sh.leaf && mem'.Keys == mem.Keys
    requires forall g :: g in sh.low && sh.low[g] in mem ==> mem'[sh.low[g]] == mem[sh.low[g]]
    ensures LowOk(mem', sh')
  {
    forall v | 0 <= v && v / 512 in sh.low ensures LowEntry(mem', sh', v) == LowEntry(mem, sh, v) { }
  }

  /** Writing pages that are not among its tables leaves an address space alone. */
  lemma ReprFrame(mem: Mem, mem': Mem, sh: Shape)
    requires Repr(mem, sh) && mem'.Keys == mem.Keys
    requires sh.root in mem ==> mem'[sh.root] == mem[sh.root]
    requires forall i :: i in sh.mid && sh.mid[i] in mem ==> mem'[sh.mid[i]] == mem[sh.mid[i]]
    requires forall g :: g in sh.low && sh.low[g] in mem ==> mem'[sh.low[g]] == mem[sh.low[g]]
    ensures Repr(mem', sh)
  {
    RootFrame(mem, mem', sh, sh);
    MidFrame(mem, mem', sh, sh);
    LowFrame(mem, mem', sh, sh);
  }

  /** Store one word in a page. */
  function Poke(mem: Mem, page: nat, i: nat, w: nat): Mem
    requires page in mem && i < 512
  {
    mem[page := mem[page][i := w]]
  }

  /** The root, the level-1 tables and the level-0 tables are all different pages. */
  ghost predicate Distinct(sh: Shape) {
    && (forall i :: i in sh.mid ==> sh.mid[i] != sh.root)
    && (forall g :: g in sh.low ==> sh.low[g] != sh.root)
    && (forall i, g :: i in sh.mid && g in sh.low ==> sh.mid[i] != sh.low[g])
    && (forall i, j :: i in sh.mid && j in sh.mid && i != j ==> sh.mid[i] != sh.mid[j])
    && (forall g, h :: g in sh.low && h in sh.low && g != h ==> sh.low[g] != sh.low[h])
  }

  lemma RootPoked(mem: Mem, sh: Shape, i: nat, p: nat)
    requires RootOk(mem, sh) && i < 512 && sh.root in mem
    ensures RootOk(Poke(mem, sh.root, i, TablePte(p)), sh.(mid := sh.mid[i := p]))
  {
    var mem' := Poke(mem, sh.root, i, TablePte(p));
    var sh' := sh.(mid := sh.mid[i := p]);
    forall k | 0 <= k < 512 && k != i ensures RootEntry(mem', sh', k) == RootEntry(mem, sh, k) { }
  }

  lemma MidGrown(mem: Mem, mem': Mem, sh: Shape, i: nat, p: nat)
    requires MidOk(mem, sh) && WellShaped(sh) && i !in sh.mid && mem'.Keys == mem.Keys
    requires p in mem && mem'[p] == ZeroPage()
    requires forall i :: i in sh.mid && sh.mid[i] in mem ==> mem'[sh.mid[i]] == mem[sh.mid[i]]
    ensures MidOk(mem', sh.(mid := sh.mid[i := p]))
  {
    var sh' := sh.(mid := sh.mid[i := p]);
    forall g | 0 <= g && g / 512 in sh'.mid
      ensures if g in sh'.low then MidEntry(mem', sh', g) == TablePte(sh'.low[g]) else !PteValid(MidEntry(mem', sh', g))
    {
      if g / 512 == i {
        assert g !in sh.low && MidEntry(mem', sh', g) == 0;
      } else {
        assert MidEntry(mem', sh', g) == MidEntry(mem, sh, g);
      }
    }
  }

  /** Linking a zeroed page as a level-1 table. */
  lemma AddMid(mem: Mem, sh: Shape, i: nat, p: nat)
    requires Repr(mem, sh) && Distinct(sh) && i < 512 && i !in sh.mid
    requires sh.root in mem && p in mem && mem[p] == ZeroPage() && p != sh.root
    ensures Repr(Poke(mem, sh.root, i, TablePte(p)), sh.(mid := sh.mid[i := p]))
  {
    var mem' := Poke(mem, sh.root, i, TablePte(p));
    RootPoked(mem, sh, i, p);
    MidGrown(mem, mem', sh, i, p);
    LowFrame(mem, mem', sh, sh.(mid := sh.mid[i := p]));
  }

  lemma MidPoked(mem: Mem, sh: Shape, g: nat, p: nat)
    requires MidOk(mem, sh) && Distinct(sh) && g / 512 in sh.mid && sh.mid[g / 512] in mem
    ensures MidOk(Poke(mem, sh.mid[g / 512], g % 512, TablePte(p)), sh.(low := sh.low[g := p]))
  {
    var mem' := Poke(mem, sh.mid[g / 512], g % 512, TablePte(p));
    var sh' := sh.(low := sh.low[g := p]);
    forall h | 0 <= h && h / 512 in sh'.mid && h != g ensures MidEntry(mem', sh', h) == MidEntry(mem, sh, h) {
      assert h / 512 != g / 512 || h % 512 != g % 512;
    }
  }

  lemma LowGrown(mem: Mem, mem': Mem, sh: Shape, g: nat, p: nat)
    requires LowOk(mem, sh) && WellShaped(sh) && g !in sh.low && mem'.Keys == mem.Keys
    requires p in mem && mem'[p] == ZeroPage()
    requires forall g :: g in sh.low && sh.low[g] in mem ==> mem'[sh.low[g]] == mem[sh.low[g]]
    ensures LowOk(mem', sh.(low := sh.low[g := p]))
  {
    var sh' := sh.(low := sh.low[g := p]);
    forall v | 0 <= v && v / 512 in sh'.low
      ensures if v in sh'.leaf then LowEntry(mem', sh', v) == sh'.leaf[v] else !PteValid(LowEntry(mem', sh', v))
    {
      if v / 512 == g {
        assert v !in sh.leaf && LowEntry(mem', sh', v) == 0;
      } else {
        assert LowEntry(mem', sh', v) == LowEntry(mem, sh, v);
      }
    }
  }

  /** Linking a zeroed page as a level-0 table. */
  lemma AddLow(mem: Mem, sh: Shape, g: nat, p: nat)
    requires Repr(mem, sh) && Distinct(sh) && g / 512 in sh.mid && g !in sh.low
    requires sh.mid[g / 512] in mem && p in mem && mem[p] == ZeroPage() && p != sh.mid[g / 512]
    ensures Repr(Poke(mem, sh.mid[g / 512], g % 512, TablePte(p)), sh.(low := sh.low[g := p]))
  {
    var mem' := Poke(mem, sh.mid[g / 512], g % 512, TablePte(p));
    RootFrame(mem, mem', sh, sh.(low := sh.low[g := p]));
    MidPoked(mem, sh, g, p);
    LowGrown(mem, mem', sh, g, p);
  }

  /** The mappings after word w is stored in the entry of page v: a valid word
      maps the page, any other word unmaps it. */
  function PutLeaf(leaf: map<nat, nat>, v: nat, w: nat): map<nat, nat> {
    if PteValid(w) then leaf[v := w] else leaf - {v}
  }

  lemma LowPoked(mem: Mem, sh: Shape, v: nat, w: nat)
    requires LowOk(mem, sh) && Distinct(sh) && v / 512 in sh.low && sh.low[v / 512] in mem
    ensures LowOk(Poke(mem, sh.low[v / 512], v % 512, w), sh.(leaf := PutLeaf(sh.leaf, v, w)))
  {
    var mem' := Poke(mem, sh.low[v / 512], v % 512, w);
    var sh' := sh.(leaf := PutLeaf(sh.leaf, v, w));
    forall u | 0 <= u && u / 512 in sh'.low && u != v ensures LowEntry(mem', sh', u) == LowEntry(mem, sh, u) {
      assert u / 512 != v / 512 || u % 512 != v % 512;
    }
  }

  /** Storing an entry in a level-0 table changes the mapping of that page and of
      no other. */
  lemma SetLeaf(mem: Mem, sh: Shape, v: nat, w: nat)
    requires Repr(mem, sh) && Distinct(sh) && v / 512 in sh.low && sh.low[v / 512] in mem
    ensures Repr(Poke(mem, sh.low[v / 512], v % 512, w), sh.(leaf := PutLeaf(sh.leaf, v, w)))
  {
    var mem' := Poke(mem, sh.low[v / 512], v % 512, w);
    var sh' := sh.(leaf := PutLeaf(sh.leaf, v, w));
    RootFrame(mem, mem', sh, sh');
    MidFrame(mem, mem', sh, sh');
    LowPoked(mem, sh, v, w);
  }

  /** Ownership keeps the tables of every address space apart. */
  lemma OwnedDistinct(pts: map<nat, Shape>, owner: map<nat, Use>, r: nat)
    requires OwnInv(pts, owner) && r in pts
    ensures Distinct(pts[r])
  {
    var sh := pts[r];
    forall i | i in sh.mid ensures sh.mid[i] in owner && owner[sh.mid[i]] == In(Mid(r, i)) {
      assert PlaceAt(pts, Mid(r, i)) == sh.mid[i];
    }
    forall g | g in sh.low ensures sh.low[g] in owner && owner[sh.low[g]] == In(Low(r, g)) {
      assert PlaceAt(pts, Low(r, g)) == sh.low[g];
    }
    assert PlaceAt(pts, Root(r)) == r;
  }
}
