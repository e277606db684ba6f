/** What the operations of kernel/vm.c change and what they leave alone. */
module VmEffects {
  import opened PageTable
  import opened VmState

  ghost predicate IsUser(u: Use) {
    u.In? && u.place.User?
  }

  ghost predicate IsData(u: Use) {
    u == Held || IsUser(u)
  }

  /** A page in use as one of the user pages a to b of address space r. */
  ghost predicate InRange(u: Use, r: nat, a: nat, b: nat) {
    IsUser(u) && u.place.r == r && a <= u.place.v < b
  }

  /** The address spaces other than r are as they were, and r has lost no table. */
  ghost predicate OnlySpace(s0: Vm, s1: Vm, r: nat) {
    && r in s0.pts && s1.pts.Keys == s0.pts.Keys
    && (forall q :: q in s0.pts && q != r ==> s1.pts[q] == s0.pts[q])
    && s0.pts[r].low.Keys <= s1.pts[r].low.Keys
    && s1.owner.Keys == s0.owner.Keys && s0.owner.Keys <= s0.mem.Keys && s1.owner.Keys <= s1.mem.Keys
  }

  /** Only address space r has changed, and among the pages that the kernel holds
      or that are user memory only those at user pages a to b of r differ, before
      or after, in use or contents. */
  ghost predicate Changed(s0: Vm, s1: Vm, r: nat, a: nat, b: nat) {
    && OnlySpace(s0, s1, r)
    && (forall p :: p in s0.owner && IsData(s0.owner[p]) && !InRange(s0.owner[p], r, a, b) ==>
          s1.owner[p] == s0.owner[p] && s1.mem[p] == s0.mem[p])
    && (forall p :: p in s1.owner && IsData(s1.owner[p]) && !InRange(s1.owner[p], r, a, b) ==>
          s0.owner[p] == s1.owner[p])
  }

  /** The same, with one page that may differ. */
  ghost predicate Touched(s0: Vm, s1: Vm, r: nat, x: nat) {
    && OnlySpace(s0, s1, r)
    && (forall p :: p in s0.owner && p != x && IsData(s0.owner[p]) ==>
          s1.owner[p] == s0.owner[p] && s1.mem[p] == s0.mem[p])
    && (forall p :: p in s1.owner && p != x && IsData(s1.owner[p]) ==> s0.owner[p] == s1.owner[p])
  }

  /** Nothing but tables of address space r has been added. */
  ghost predicate Grew(s0: Vm, s1: Vm, r: nat) {
    Changed(s0, s1, r, 0, 0) && s1.pts[r].leaf == s0.pts[r].leaf
  }

  lemma ChangedTrans(s0: Vm, s1: Vm, s2: Vm, r: nat, a: nat, b: nat)
    requires Changed(s0, s1, r, a, b) && Changed(s1, s2, r, a, b)
    ensures Changed(s0, s2, r, a, b)
  {
  }

  lemma ChangedWider(s0: Vm, s1: Vm, r: nat, a: nat, b: nat, c: nat, d: nat)
    requires Changed(s0, s1, r, a, b) && (a >= b || c <= a <= b <= d)
    ensures Changed(s0, s1, r, c, d)
  {
  }

  lemma GrewTrans(s0: Vm, s1: Vm, s2: Vm, r: nat)
    requires Grew(s0, s1, r) && Grew(s1, s2, r)
    ensures Grew(s0, s2, r)
  {
  }

  lemma GrewRefl(s: Vm, r: nat)
    requires r in s.pts && s.owner.Keys <= s.mem.Keys
    ensures Grew(s, s, r)
  {
  }

  predicate HasTable(sh: Shape, level: nat, v: nat) {
    if level == 2 then true else if level == 1 then v / 512 / 512 in sh.mid else v / 512 in sh.low
  }

  /** The table that holds the level's entry for page v. */
  function TableAt(sh: Shape, level: nat, v: nat): nat
    requires HasTable(sh, level, v)
  {
    if level == 2 then sh.root else if level == 1 then sh.mid[v / 512 / 512] else sh.low[v / 512]
  }

  /** The state once a page held by the kernel, zeroed, is linked as the next table. */
  function Linked(s: Vm, r: nat, v: nat, level: nat, p: nat): Vm
    requires r in s.pts && r in s.mem && v < MAXVPN && 1 <= level <= 2
    requires level == 1 ==> v / 512 / 512 in s.pts[r].mid && s.pts[r].mid[v / 512 / 512] in s.mem
  {
    if level == 2 then LinkMid(s, r, v / 512 / 512, p) else LinkLow(s, r, v / 512, p)
  }

  lemma LinkedSound(s: Vm, r: nat, v: nat, level: nat, p: nat)
    requires Sound(s) && r in s.pts && v < MAXVPN && 1 <= level <= 2
    requires HasTable(s.pts[r], level, v) && !HasTable(s.pts[r], level - 1, v)
    requires p in s.owner && s.owner[p] == Held && s.mem[p] == ZeroPage()
    ensures r in s.mem && (level == 1 ==> s.pts[r].mid[v / 512 / 512] in s.mem)
    ensures Sound(Linked(s, r, v, level, p))
    ensures HasTable(Linked(s, r, v, level, p).pts[r], level - 1, v)
    ensures TableAt(Linked(s, r, v, level, p).pts[r], level - 1, v) == p
  {
    TablesInUse(s.pts, s.owner, r);
    if level == 2 {
      LinkMidSound(s, r, v / 512 / 512, p);
    } else {
      LinkLowSound(s, r, v / 512, p);
    }
  }

  /** The one word of memory that linking changes. */
  lemma LinkedWord(s: Vm, r: nat, v: nat, level: nat, p: nat)
    requires r in s.pts && s.pts[r].root == r && r in s.mem && v < MAXVPN && 1 <= level <= 2
    requires level == 1 ==> v / 512 / 512 in s.pts[r].mid && s.pts[r].mid[v / 512 / 512] in s.mem
    ensures
      var s' := Linked(s, r, v, level, p);
      && TableAt(s.pts[r], level, v) in s.mem
      && s'.mem == Poke(s.mem, TableAt(s.pts[r], level, v), Px(level, v * PGSIZE), TablePte(p))
      && s'.freelist == s.freelist && s'.free == s.free
  {
    PxOfPage(v * PGSIZE);
    assert v * PGSIZE / PGSIZE == v;
  }

  /** A free page, taken and zeroed. */
  function Fresh(s: Vm): Vm
    requires s.free != [] && s.free[0] in s.mem
  {
    Take(s).(mem := Take(s).mem[s.free[0] := ZeroPage()])
  }

  /** Taking a free page, zeroing it and linking it adds one table and nothing else. */
  lemma FreshKept(s: Vm)
    requires s.free != [] && s.free[0] in s.mem && s.free[0] in s.owner && s.owner[s.free[0]] == Free
    requires s.owner.Keys <= s.mem.Keys
    ensures forall p :: p in s.owner && p != s.free[0] ==>
              Fresh(s).owner[p] == s.owner[p] && Fresh(s).mem[p] == s.mem[p]
  {
  }

  lemma MidGrew(s: Vm, r: nat, i: nat)
    requires r in s.pts && TablesOf(s.pts[r], s.owner, r) && s.pts[r].root == r && i < 512
    requires s.free != [] && s.free[0] in s.mem && s.free[0] in s.owner && s.owner[s.free[0]] == Free
    requires s.owner.Keys <= s.mem.Keys
    ensures Grew(s, LinkMid(Fresh(s), r, i, s.free[0]), r)
  {
    FreshKept(s);
  }

  lemma LowGrew(s: Vm, r: nat, g: nat)
    requires r in s.pts && TablesOf(s.pts[r], s.owner, r) && g / 512 in s.pts[r].mid
    requires s.free != [] && s.free[0] in s.mem && s.free[0] in s.owner && s.owner[s.free[0]] == Free
    requires s.owner.Keys <= s.mem.Keys
    ensures Grew(s, LinkLow(Fresh(s), r, g, s.free[0]), r)
  {
    FreshKept(s);
  }

  lemma LinkedGrew(s: Vm, r: nat, v: nat, level: nat)
    requires Sound(s) && r in s.pts && v < MAXVPN && 1 <= level <= 2 && HasTable(s.pts[r], level, v)
    requires s.free != [] && s.free[0] in s.mem
    requires r in Fresh(s).mem && (level == 1 ==> s.pts[r].mid[v / 512 / 512] in Fresh(s).mem)
    ensures Grew(s, Linked(Fresh(s), r, v, level, s.free[0]), r)
  {
    TablesInUse(s.pts, s.owner, r);
    assert s.free[0] in s.free;
    if level == 2 { MidGrew(s, r, v / 512 / 512); } else { LowGrew(s, r, v / 512); }
  }

  lemma RootLookup(mem: Mem, sh: Shape, v: nat)
    requires RootOk(mem, sh) && v < MAXVPN
    ensures
      var pte := Entry(mem, sh.root, v / 512 / 512);
      && (PteValid(pte) <==> v / 512 / 512 in sh.mid)
      && (PteValid(pte) ==> PtePage(pte) == sh.mid[v / 512 / 512])
  {
    var i := v / 512 / 512;
    assert RootEntry(mem, sh, i) == Entry(mem, sh.root, i);
    if i in sh.mid { PteRoundTrip(sh.mid[i], 1); }
  }

  lemma MidLookup(mem: Mem, sh: Shape, v: nat)
    requires MidOk(mem, sh) && v / 512 / 512 in sh.mid
    ensures
      var pte := Entry(mem, sh.mid[v / 512 / 512], v / 512 % 512);
      && (PteValid(pte) <==> v / 512 in sh.low)
      && (PteValid(pte) ==> PtePage(pte) == sh.low[v / 512])
  {
    var g := v / 512;
    assert MidEntry(mem, sh, g) == Entry(mem, sh.mid[g / 512], g % 512);
    if g in sh.low { PteRoundTrip(sh.low[g], 1); }
  }

  lemma LowLookup(mem: Mem, sh: Shape, v: nat)
    requires LowOk(mem, sh) && WellShaped(sh) && v / 512 in sh.low
    ensures
      var pte := Entry(mem, sh.low[v / 512], v % 512);
      && (PteValid(pte) <==> v in sh.leaf)
      && (PteValid(pte) ==> pte == sh.leaf[v])
  {
    assert LowEntry(mem, sh, v) == Entry(mem, sh.low[v / 512], v % 512);
  }

  /** What memory holds where walk() looks. */
  lemma WalkEntry(s: Vm, r: nat, v: nat, level: nat)
    requires Sound(s) && r in s.pts && v < MAXVPN && 1 <= level <= 2 && HasTable(s.pts[r], level, v)
    ensures
      var t := TableAt(s.pts[r], level, v);
      var pte := Entry(s.mem, t, Px(level, v * PGSIZE));
      && t in s.mem
      && (PteValid(pte) <==> HasTable(s.pts[r], level - 1, v))
      && (PteValid(pte) ==> PtePage(pte) == TableAt(s.pts[r], level - 1, v))
  {
    PxOfPage(v * PGSIZE);
    assert v * PGSIZE / PGSIZE == v;
    TableInMem(s, r, v, level);
    assert Repr(s.mem, s.pts[r]);
    if level == 2 { RootLookup(s.mem, s.pts[r], v); } else { MidLookup(s.mem, s.pts[r], v); }
  }

  /** What memory holds at the entry walk() returns. */
  lemma LeafEntry(s: Vm, r: nat, v: nat)
    requires Sound(s) && r in s.pts && v / 512 in s.pts[r].low
    ensures s.pts[r].low[v / 512] in s.mem
    ensures
      var pte := s.mem[s.pts[r].low[v / 512]][v % 512];
      (PteValid(pte) <==> v in s.pts[r].leaf) && (PteValid(pte) ==> pte == s.pts[r].leaf[v])
  {
    TableInMem(s, r, v, 0);
    assert Repr(s.mem, s.pts[r]);
    LowLookup(s.mem, s.pts[r], v);
  }

  /** Storing an entry touches one table, and the use of one page. */
  lemma PutTouched(s0: Vm, s: Vm, r: nat, v: nat, w: nat, owner': map<nat, Use>, p: nat)
    requires Grew(s0, s, r) && v / 512 in s.pts[r].low && s.pts[r].low[v / 512] in s.mem
    requires s.pts[r].low[v / 512] in s.owner && s.owner[s.pts[r].low[v / 512]] == In(Low(r, v / 512))
    requires p in s.owner && p != s.pts[r].low[v / 512]
    requires owner'.Keys == s.owner.Keys && forall q :: q in s.owner && q != p ==> owner'[q] == s.owner[q]
    ensures Touched(s0, PutPte(s, r, v, w, owner'), r, p)
    ensures PutPte(s, r, v, w, owner').mem[p] == s.mem[p]
  {
  }

  /** The effect of mapping one user page. */
  lemma GrewMap(s0: Vm, s1: Vm, r: nat, v: nat, p: nat, flags: nat)
    requires Grew(s0, s1, r) && v / 512 in s1.pts[r].low && s1.pts[r].low[v / 512] in s1.mem
    requires TablesOf(s1.pts[r], s1.owner, r)
    requires p in s0.owner && s0.owner[p] == Held && flags < 0x400 && PteValid(flags)
    ensures
      var s2 := PutPte(s1, r, v, MakePte(p, flags), s1.owner[p := In(User(r, v))]);
      && Touched(s0, s2, r, p) && s2.pts[r].leaf == s0.pts[r].leaf[v := MakePte(p, flags)]
      && s2.mem[p] == s0.mem[p]
  {
    PteRoundTrip(p, flags);
    PutTouched(s0, s1, r, v, MakePte(p, flags), s1.owner[p := In(User(r, v))], p);
  }

  lemma GrewSpecial(s0: Vm, s1: Vm, r: nat, v: nat, w: nat)
    requires Grew(s0, s1, r) && v / 512 in s1.pts[r].low && s1.pts[r].low[v / 512] in s1.mem
    requires TablesOf(s1.pts[r], s1.owner, r) && PteValid(w)
    ensures
      var s2 := PutPte(s1, r, v, w, s1.owner);
      Changed(s0, s2, r, 0, 0) && s2.pts[r].leaf == s0.pts[r].leaf[v := w]
  {
  }

  lemma TableInMem(s: Vm, r: nat, v: nat, level: nat)
    requires Sound(s) && r in s.pts && level <= 2 && HasTable(s.pts[r], level, v)
    ensures TableAt(s.pts[r], level, v) in s.mem && TableAt(s.pts[r], level, v) in s.owner
    ensures TableAt(s.pts[r], level, v) != 0
  {
    TablesInUse(s.pts, s.owner, r);
  }

  // ----- Unmapping --------------------------------------------------------------------

  function Without(leaf: map<nat, nat>, a: nat, b: nat): map<nat, nat> {
    map u | u in leaf && !(a <= u < b) :: leaf[u]
  }

  /** The pages a to b of address space r are no longer mapped; the memory of the
      user pages among them is free; every other page has the use it had. */
  ghost predicate Unmapped(s0: Vm, s1: Vm, r: nat, a: nat, b: nat) {
    && Changed(s0, s1, r, a, b)
    && s1.pts[r].leaf == Without(s0.pts[r].leaf, a, b)
    && (forall p :: p in s0.owner ==> s1.owner[p] == if InRange(s0.owner[p], r, a, b) then Free else s0.owner[p])
  }

  lemma UnmappedEmpty(s: Vm, r: nat, a: nat)
    requires r in s.pts && s.owner.Keys <= s.mem.Keys
    ensures Unmapped(s, s, r, a, a)
  {
    assert s.pts[r].leaf == Without(s.pts[r].leaf, a, a);
  }

  lemma UnmappedNone(s: Vm, r: nat, v: nat, next: nat)
    requires Sound(s) && r in s.pts && v !in s.pts[r].leaf && next == v + 1
    ensures Unmapped(s, s, r, v, next)
  {
    NotMapped(s.pts, s.owner, r, v, next);
    WithoutNone(s.pts[r].leaf, v, next);
  }

  lemma WithoutNone(leaf: map<nat, nat>, v: nat, next: nat)
    requires v !in leaf && next == v + 1
    ensures leaf == Without(leaf, v, next)
  {
  }

  lemma NotMapped(pts: map<nat, Shape>, owner: map<nat, Use>, r: nat, v: nat, next: nat)
    requires OwnInv(pts, owner) && r in pts && (v !in pts[r].leaf || v >= TRAPFRAME) && next == v + 1
    ensures forall p :: p in owner ==> !InRange(owner[p], r, v, next)
  {
    forall p | p in owner ensures !InRange(owner[p], r, v, next) {
      if owner[p].In? { assert PlaceAt(pts, owner[p].place) == p; }
    }
  }

  /** Names the end of the range differently. */
  lemma UnmappedTo(s0: Vm, s1: Vm, r: nat, a: nat, b: nat, c: nat)
    requires Unmapped(s0, s1, r, a, b) && b == c
    ensures Unmapped(s0, s1, r, a, c)
  {
  }

  lemma UnmappedTrans(s0: Vm, s1: Vm, s2: Vm, r: nat, a: nat, b: nat, c: nat)
    requires Unmapped(s0, s1, r, a, b) && Unmapped(s1, s2, r, b, c) && a <= b <= c
    ensures Unmapped(s0, s2, r, a, c)
  {
    var leaf := s0.pts[r].leaf;
    assert Without(leaf, a, c) == Without(Without(leaf, a, b), b, c);
  }

  /** kfree() of a mapped page and the clearing of its entry, in either order. */
  lemma FreeThenClear(s: Vm, r: nat, v: nat, p: nat)
    requires r in s.pts && v / 512 in s.pts[r].low && s.pts[r].low[v / 512] in s.mem
    requires p in s.mem && p != s.pts[r].low[v / 512]
    ensures PutPte(Give(s, p), r, v, 0, s.owner[p := Free]) == Give(PutPte(s, r, v, 0, s.owner[p := Held]), p)
  {
    assert PutPte(Give(s, p), r, v, 0, s.owner[p := Free]).mem == Give(PutPte(s, r, v, 0, s.owner[p := Held]), p).mem;
    assert s.owner[p := Held][p := Free] == s.owner[p := Free];
  }

  /** Freeing and unmapping one user page. */
  lemma UnmapUser(s: Vm, r: nat, v: nat, next: nat)
    requires r in s.pts && v / 512 in s.pts[r].low && s.pts[r].low[v / 512] in s.mem
    requires s.owner.Keys <= s.mem.Keys && TablesOf(s.pts[r], s.owner, r) && v in s.pts[r].leaf && v < TRAPFRAME
    requires next == v + 1
    requires PtePage(s.pts[r].leaf[v]) in s.owner && s.owner[PtePage(s.pts[r].leaf[v])] == In(User(r, v))
    requires forall p :: p in s.owner && InRange(s.owner[p], r, v, next) ==> p == PtePage(s.pts[r].leaf[v])
    ensures
      var p := PtePage(s.pts[r].leaf[v]);
      Unmapped(s, PutPte(Give(s, p), r, v, 0, s.owner[p := Free]), r, v, next)
  {
    var leaf := s.pts[r].leaf;
    assert leaf - {v} == Without(leaf, v, next);
  }

  lemma UserPage(pts: map<nat, Shape>, owner: map<nat, Use>, r: nat, v: nat, next: nat)
    requires OwnInv(pts, owner) && r in pts && v in pts[r].leaf && v < TRAPFRAME && next == v + 1
    ensures PtePage(pts[r].leaf[v]) in owner && owner[PtePage(pts[r].leaf[v])] == In(User(r, v))
    ensures forall p :: p in owner && InRange(owner[p], r, v, next) ==> p == PtePage(pts[r].leaf[v])
  {
    assert PlaceAt(pts, User(r, v)) == PtePage(pts[r].leaf[v]);
    forall p | p in owner && InRange(owner[p], r, v, next) ensures p == PtePage(pts[r].leaf[v]) {
      assert owner[p] == In(User(r, v));
    }
  }

  lemma UnmapUserFree(s: Vm, r: nat, v: nat)
    requires Sound(s) && r in s.pts && v / 512 in s.pts[r].low && v in s.pts[r].leaf && v < TRAPFRAME
    ensures s.pts[r].low[v / 512] in s.mem && PtePage(s.pts[r].leaf[v]) in s.mem
    ensures
      var p := PtePage(s.pts[r].leaf[v]);
      Sound(PutPte(Give(s, p), r, v, 0, s.owner[p := Free]))
  {
    UnmapUserSound(s, r, v);
    TableInMem(s, r, v, 0);
    var p := PtePage(s.pts[r].leaf[v]);
    assert p != s.pts[r].low[v / 512] by { TablesInUse(s.pts, s.owner, r); }
    GiveSound(PutPte(s, r, v, 0, s.owner[p := Held]), p);
    FreeThenClear(s, r, v, p);
  }

  /** Unmapping the trampoline or the trapframe. */
  lemma UnmapSpecial(s: Vm, r: nat, v: nat, next: nat)
    requires r in s.pts && v / 512 in s.pts[r].low && s.pts[r].low[v / 512] in s.mem
    requires s.owner.Keys <= s.mem.Keys && TablesOf(s.pts[r], s.owner, r) && next == v + 1
    requires forall p :: p in s.owner ==> !InRange(s.owner[p], r, v, next)
    ensures Unmapped(s, PutPte(s, r, v, 0, s.owner), r, v, next)
  {
    var leaf := s.pts[r].leaf;
    assert leaf - {v} == Without(leaf, v, next);
  }

  // ----- Filling ------------------------------------------------------------------------

  /** What a user page shows: its permission bits and its contents. */
  datatype Shown = Shown(flags: nat, page: Page)

  /** What is to be mapped: a zero page everywhere, or copies of some pages. */
  datatype Want = Zeroes(flags: nat) | Copies(pages: map<nat, Shown>)

  predicate Has(want: Want, u: nat) {
    want.Zeroes? || u in want.pages
  }

  function At(want: Want, u: nat): Shown
    requires Has(want, u)
  {
    if want.Zeroes? then Shown(want.flags, ZeroPage()) else want.pages[u]
  }

  /** User page u of address space r shows x. */
  ghost predicate Shows(s: Vm, r: nat, u: nat, x: Shown) {
    && r in s.pts && u in s.pts[r].leaf && PteFlags(s.pts[r].leaf[u]) == x.flags
    && PtePage(s.pts[r].leaf[u]) in s.owner && s.owner[PtePage(s.pts[r].leaf[u])] == In(User(r, u))
    && PtePage(s.pts[r].leaf[u]) in s.mem && s.mem[PtePage(s.pts[r].leaf[u])] == x.page
  }

  /** The pages a to b of address space r, none of them mapped before, show what
      `want` says; everything else is as it was. */
  ghost predicate FilledWith(s0: Vm, s1: Vm, r: nat, a: nat, b: nat, want: Want) {
    && Changed(s0, s1, r, a, b)
    && (forall u :: u in s0.pts[r].leaf ==> u in s1.pts[r].leaf && s1.pts[r].leaf[u] == s0.pts[r].leaf[u])
    && (forall u :: u in s1.pts[r].leaf ==> u in s0.pts[r].leaf || (a <= u < b && Has(want, u)))
    && (forall u: nat :: Has(want, u) && a <= u < b ==> Shows(s1, r, u, At(want, u)))
  }

  /** No page of the range is mapped. */
  ghost predicate Vacant(leaf: map<nat, nat>, a: nat, b: nat) {
    forall u :: u in leaf ==> !(a <= u < b)
  }

  /** One page has been added to address space r. */
  ghost predicate Added(s0: Vm, s1: Vm, r: nat, v: nat, next: nat, x: Shown) {
    && Changed(s0, s1, r, v, next) && Shows(s1, r, v, x)
    && s1.pts[r].leaf == s0.pts[r].leaf[v := s1.pts[r].leaf[v]]
  }

  /** The last page of a range of whole pages. */
  lemma LastPage(va: nat, size: nat)
    requires va % PGSIZE == 0 && size % PGSIZE == 0 && size > 0
    ensures va / PGSIZE <= (va + size - PGSIZE) / PGSIZE && (va + size - PGSIZE) / PGSIZE + 1 == (va + size) / PGSIZE
    ensures va + size <= PGSIZE * TRAPFRAME ==> (va + size) / PGSIZE <= TRAPFRAME
  {
  }

  /** The page that page u of a range starting at v shows, if v shows p. */
  function PageAt(v: nat, p: nat, u: nat): nat
    requires v <= u
  {
    p + (u - v)
  }

  /** The pages from v up to `end` have been added to address space r: they show the
      pages from p on, which the kernel held, with their contents as they were. */
  ghost predicate Ranged(s0: Vm, s1: Vm, r: nat, v: nat, end: nat, p: nat, flags: nat)
    requires flags < 0x400
  {
    && v <= end && OnlySpace(s0, s1, r)
    && (forall u :: u in s0.pts[r].leaf ==> u in s1.pts[r].leaf && s1.pts[r].leaf[u] == s0.pts[r].leaf[u])
    && (forall u :: u in s1.pts[r].leaf ==> u in s0.pts[r].leaf || v <= u < end)
    && (forall u :: v <= u < end ==>
          && u !in s0.pts[r].leaf && u in s1.pts[r].leaf
          && s1.pts[r].leaf[u] == MakePte(PageAt(v, p, u), flags))
    && (forall q :: q in s0.owner && IsData(s0.owner[q]) ==>
          && s1.mem[q] == s0.mem[q]
          && if p <= q < PageAt(v, p, end) then IsUser(s1.owner[q]) else s1.owner[q] == s0.owner[q])
    && (forall q :: q in s1.owner && IsData(s1.owner[q]) ==> IsData(s0.owner[q]))
  }

  /** The outcome of mapping the pages from v to `to`, of which those below `end` are
      mapped: all of them, or a page that was mapped, or no memory for its tables. */
  ghost predicate MappedTo(s0: Vm, s1: Vm, r: nat, v: nat, end: nat, to: nat, p: nat, flags: nat,
                           res: int, panicked: bool)
    requires flags < 0x400
  {
    && Ranged(s0, s1, r, v, end, p, flags)
    && (res == 0 || res == -1) && (res == 0 && !panicked <==> end == to)
    && (panicked <==> end < to && end in s0.pts[r].leaf)
    && (res == -1 ==> |s0.free| <= 2 * (end - v) + 1)
  }

  /** The loop of mappages(): about to map page a, or done. */
  ghost predicate Mapping(s0: Vm, s1: Vm, r: nat, v: nat, a: nat, end: nat, to: nat, p: nat, flags: nat,
                          done: bool, res: int, panicked: bool)
    requires flags < 0x400
  {
    if done then
      MappedTo(s0, s1, r, v, end, to, p, flags, res, panicked)
    else
      v <= a < to && |s0.free| <= |s1.free| + 2 * (a - v) && Ranged(s0, s1, r, v, a, p, flags)
  }

  lemma RangedGrew(s0: Vm, s1: Vm, s2: Vm, r: nat, v: nat, end: nat, p: nat, flags: nat)
    requires flags < 0x400 && Ranged(s0, s1, r, v, end, p, flags) && Grew(s1, s2, r)
    ensures Ranged(s0, s2, r, v, end, p, flags)
  {
  }

  lemma RangedMore(s0: Vm, s1: Vm, s2: Vm, r: nat, v: nat, cur: nat, next: nat, p: nat, x: nat, flags: nat)
    requires flags < 0x400 && Ranged(s0, s1, r, v, cur, p, flags) && next == cur + 1 && x == PageAt(v, p, cur)
    requires cur !in s1.pts[r].leaf && x in s1.owner && s1.owner[x] == Held && Touched(s1, s2, r, x)
    requires s2.pts[r].leaf == s1.pts[r].leaf[cur := MakePte(x, flags)]
    requires s2.owner[x] == In(User(r, cur)) && s2.mem[x] == s1.mem[x]
    ensures Ranged(s0, s2, r, v, next, p, flags)
  {
  }

  lemma FilledNone(s: Vm, r: nat, a: nat, want: Want)
    requires r in s.pts && s.owner.Keys <= s.mem.Keys
    ensures FilledWith(s, s, r, a, a, want)
  {
  }

  lemma FilledTo(s0: Vm, s1: Vm, r: nat, a: nat, b: nat, c: nat, want: Want)
    requires FilledWith(s0, s1, r, a, b, want) && b == c
    ensures FilledWith(s0, s1, r, a, c, want)
  {
  }

  /** Nothing to add at page b. */
  lemma FilledSkip(s0: Vm, s1: Vm, r: nat, a: nat, b: nat, next: nat, want: Want)
    requires FilledWith(s0, s1, r, a, b, want) && !Has(want, b) && a <= b && next == b + 1
    ensures FilledWith(s0, s1, r, a, next, want)
  {
    ChangedWider(s0, s1, r, a, b, a, next);
  }

  /** Added leaves the pages outside its range alone. */
  lemma AddedKeeps(s1: Vm, s2: Vm, r: nat, v: nat, next: nat, x: Shown, u: nat, y: Shown)
    requires Added(s1, s2, r, v, next, x) && Shows(s1, r, u, y) && u != v && next == v + 1
    ensures Shows(s2, r, u, y)
  {
    var p := PtePage(s1.pts[r].leaf[u]);
    assert s2.pts[r].leaf[u] == s1.pts[r].leaf[u];
    assert !InRange(s1.owner[p], r, v, next);
  }

  lemma FilledAdd(s0: Vm, s1: Vm, s2: Vm, r: nat, a: nat, b: nat, next: nat, want: Want)
    requires FilledWith(s0, s1, r, a, b, want) && Has(want, b) && a <= b && next == b + 1
    requires Added(s1, s2, r, b, next, At(want, b))
    requires b !in s0.pts[r].leaf
    ensures FilledWith(s0, s2, r, a, next, want)
  {
    ChangedWider(s0, s1, r, a, b, a, next);
    ChangedWider(s1, s2, r, b, next, a, next);
    ChangedTrans(s0, s1, s2, r, a, next);
    forall u: nat | Has(want, u) && a <= u < next ensures Shows(s2, r, u, At(want, u)) {
      if u != b { AddedKeeps(s1, s2, r, b, next, At(want, b), u, At(want, u)); }
    }
  }

  /** Undoing a filling that could not be finished. */
  lemma RolledBack(s0: Vm, s1: Vm, s2: Vm, s3: Vm, r: nat, a: nat, b: nat, want: Want)
    requires FilledWith(s0, s1, r, a, b, want) && Grew(s1, s2, r) && Unmapped(s2, s3, r, a, b)
    requires Vacant(s0.pts[r].leaf, a, b)
    requires forall p :: p in s0.owner ==> !InRange(s0.owner[p], r, a, b)
    ensures Grew(s0, s3, r)
  {
    assert s3.pts[r].leaf == s0.pts[r].leaf;
    UndoneData(s0, s1, s2, s3, r, a, b);
  }

  lemma UndoneData(s0: Vm, s1: Vm, s2: Vm, s3: Vm, r: nat, a: nat, b: nat)
    requires Changed(s0, s1, r, a, b) && Changed(s1, s2, r, 0, 0) && Unmapped(s2, s3, r, a, b)
    requires forall p :: p in s0.owner ==> !InRange(s0.owner[p], r, a, b)
    ensures Changed(s0, s3, r, 0, 0)
  {
  }

  /** A page that is not mapped has no memory. */
  lemma VacantRange(pts: map<nat, Shape>, owner: map<nat, Use>, r: nat, a: nat, b: nat)
    requires OwnInv(pts, owner) && r in pts && Vacant(pts[r].leaf, a, b)
    ensures forall p :: p in owner ==> !InRange(owner[p], r, a, b)
  {
    forall p | p in owner ensures !InRange(owner[p], r, a, b) {
      if owner[p].In? { assert PlaceAt(pts, owner[p].place) == p; }
    }
  }

  /** PTE_R | PTE_U | PTE_V, and more. */
  function UserFlags(xperm: nat): (flags: nat)
    requires xperm == 0 || xperm == 4 || xperm == 8 || xperm == 12
    ensures flags < 0x400 && PteValid(flags) && PteUser(flags) && !PteTable(flags)
  {
    19 + xperm
  }

  /** A process of size sz: no user page is mapped beyond it, and it leaves room
      for the trapframe and the trampoline. */
  ghost predicate SizeOk(s: Vm, r: nat, sz: nat) {
    r in s.pts && sz <= PGSIZE * TRAPFRAME && Vacant(s.pts[r].leaf, PageRoundUp(sz), TRAPFRAME)
  }

  lemma RoundUpBounds(a: nat, b: nat)
    requires a <= b <= PGSIZE * TRAPFRAME
    ensures PageRoundUp(a) <= PageRoundUp(b) <= TRAPFRAME
  {
  }

  lemma BelowSize(va: nat, v: nat, sz: nat)
    requires v == va / PGSIZE && va < sz <= PGSIZE * TRAPFRAME
    ensures v < PageRoundUp(sz) && v < TRAPFRAME
  {
  }

  lemma AddedSize(s0: Vm, s1: Vm, r: nat, v: nat, next: nat, x: Shown, sz: nat)
    requires Added(s0, s1, r, v, next, x) && SizeOk(s0, r, sz) && v < PageRoundUp(sz)
    ensures SizeOk(s1, r, sz)
  {
  }

  lemma GrownSize(s0: Vm, s1: Vm, r: nat, a: nat, b: nat, sz: nat, want: Want)
    requires FilledWith(s0, s1, r, a, b, want) && Vacant(s0.pts[r].leaf, a, TRAPFRAME)
    requires a <= b == PageRoundUp(sz) && sz <= PGSIZE * TRAPFRAME
    ensures SizeOk(s1, r, sz)
  {
  }

  lemma ShrunkSize(s0: Vm, s1: Vm, r: nat, a: nat, b: nat, sz: nat)
    requires Unmapped(s0, s1, r, a, b) && Vacant(s0.pts[r].leaf, b, TRAPFRAME)
    requires a == PageRoundUp(sz) && sz <= PGSIZE * TRAPFRAME
    ensures SizeOk(s1, r, sz)
  {
  }

  // ----- Adding one page ------------------------------------------------------------------

  /** A free page, taken and filled. */
  function TakenAs(s: Vm, page: Page): Vm
    requires s.free != [] && s.free[0] in s.mem
  {
    Take(s).(mem := Take(s).mem[s.free[0] := page])
  }

  lemma TakenMapped(s0: Vm, s2: Vm, r: nat, v: nat, next: nat, page: Page, flags: nat)
    requires s0.free != [] && s0.free[0] in s0.mem && s0.free[0] in s0.owner && s0.owner[s0.free[0]] == Free
    requires Touched(TakenAs(s0, page), s2, r, s0.free[0]) && s0.owner.Keys <= s0.mem.Keys && next == v + 1
    requires s2.owner[s0.free[0]] == In(User(r, v)) && s2.mem[s0.free[0]] == page
    requires flags < 0x400 && s2.pts[r].leaf == s0.pts[r].leaf[v := MakePte(s0.free[0], flags)]
    ensures Added(s0, s2, r, v, next, Shown(flags, page))
  {
    PteRoundTrip(s0.free[0], flags);
  }

  lemma TakenReturned(s0: Vm, s2: Vm, r: nat, page: Page)
    requires s0.free != [] && s0.free[0] in s0.mem && s0.free[0] in s0.owner && s0.owner[s0.free[0]] == Free
    requires Grew(TakenAs(s0, page), s2, r) && s0.owner.Keys <= s0.mem.Keys && s0.free[0] in s2.mem
    ensures Grew(s0, Give(s2, s0.free[0]), r)
  {
  }

  // ----- Copying an address space --------------------------------------------------------

  /** All that a process can see of its memory. */
  function View(s: Vm, r: nat): map<nat, Shown>
    requires r in s.pts
  {
    map u | u in s.pts[r].leaf && u < TRAPFRAME && PtePage(s.pts[r].leaf[u]) in s.mem ::
      Shown(PteFlags(s.pts[r].leaf[u]), s.mem[PtePage(s.pts[r].leaf[u])])
  }

  lemma FlagsOfPte(pte: nat)
    requires PteValid(pte)
    ensures PteFlags(pte) < 0x400 && PteValid(PteFlags(pte))
  {
  }

  /** A mapped user page is in memory, and is its own. */
  lemma MappedPage(s: Vm, r: nat, u: nat)
    requires Sound(s) && r in s.pts && u in s.pts[r].leaf && u < TRAPFRAME
    ensures
      var p := PtePage(s.pts[r].leaf[u]);
      && p in s.owner && s.owner[p] == In(User(r, u)) && p in s.mem
      && u in View(s, r) && View(s, r)[u] == Shown(PteFlags(s.pts[r].leaf[u]), s.mem[p])
      && PteValid(s.pts[r].leaf[u])
  {
    assert PlaceAt(s.pts, User(r, u)) == PtePage(s.pts[r].leaf[u]);
    assert Repr(s.mem, s.pts[r]);
  }

  /** While q is filled, the pages of another address space stay as they were. */
  lemma OtherPage(s0: Vm, s1: Vm, r: nat, q: nat, a: nat, b: nat, u: nat)
    requires Sound(s0) && Changed(s0, s1, q, a, b) && r in s0.pts && r != q
    requires u in s0.pts[r].leaf && u < TRAPFRAME
    ensures s1.pts[r] == s0.pts[r] && PtePage(s0.pts[r].leaf[u]) in s1.mem
    ensures View(s0, r)[u] == Shown(PteFlags(s0.pts[r].leaf[u]), s1.mem[PtePage(s0.pts[r].leaf[u])])
  {
    MappedPage(s0, r, u);
    var p := PtePage(s0.pts[r].leaf[u]);
    assert !InRange(s0.owner[p], q, a, b);
  }

  /** The memory of a user page is the same in both states. */
  ghost predicate SamePage(s0: Vm, s1: Vm, r: nat, u: nat)
    requires r in s0.pts && u in s0.pts[r].leaf
  {
    var p := PtePage(s0.pts[r].leaf[u]);
    p in s0.mem && p in s1.mem && s1.mem[p] == s0.mem[p]
  }

  lemma SameView(s0: Vm, s1: Vm, r: nat)
    requires r in s0.pts && r in s1.pts && s1.pts[r] == s0.pts[r]
    requires forall u :: u in s0.pts[r].leaf && u < TRAPFRAME ==> SamePage(s0, s1, r, u)
    ensures View(s1, r) == View(s0, r)
  {
  }

  lemma OthersKept(s0: Vm, s1: Vm, r: nat, q: nat, a: nat, b: nat)
    requires Sound(s0) && Changed(s0, s1, q, a, b) && r in s0.pts && r != q
    ensures forall u :: u in s0.pts[r].leaf && u < TRAPFRAME ==> SamePage(s0, s1, r, u)
  {
    forall u | u in s0.pts[r].leaf && u < TRAPFRAME ensures SamePage(s0, s1, r, u) {
      MappedPage(s0, r, u);
      OtherPage(s0, s1, r, q, a, b, u);
    }
  }

  /** Whatever happens to one address space, every other process sees the same
      memory as before. */
  lemma OthersSeeTheSame(s0: Vm, s1: Vm, r: nat, q: nat, a: nat, b: nat)
    requires Sound(s0) && Changed(s0, s1, q, a, b) && r in s0.pts && r != q
    ensures r in s1.pts && View(s1, r) == View(s0, r)
  {
    OthersKept(s0, s1, r, q, a, b);
    SameView(s0, s1, r);
  }

  /** After a copy the child sees what the parent sees. */
  lemma CopySeesTheSame(s0: Vm, s1: Vm, r: nat, q: nat, end: nat)
    requires r in s0.pts && FilledWith(s0, s1, q, 0, end, Copies(View(s0, r)))
    requires Vacant(s0.pts[q].leaf, 0, TRAPFRAME) && Vacant(s0.pts[r].leaf, end, TRAPFRAME)
    ensures q in s1.pts && View(s1, q) == View(s0, r)
  {
    var want := Copies(View(s0, r));
    forall u | u in View(s0, r) ensures u in View(s1, q) && View(s1, q)[u] == View(s0, r)[u] {
      assert Has(want, u) && At(want, u) == View(s0, r)[u];
      assert Shows(s1, q, u, At(want, u));
    }
  }
}
