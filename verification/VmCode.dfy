/** The code of kernel/kalloc.c and kernel/vm.c. Addresses of pages are page
    numbers; 0 is the null pointer. */
module VmCode {
  import opened PageTable
  import opened VmState
  import opened VmEffects
  import opened VmTeardown

  /** The pages from lo up to hi became free, and nothing else changed hands. */
  ghost predicate GivenBack(o0: map<nat, Use>, o1: map<nat, Use>, lo: nat, hi: nat) {
    && o1.Keys == o0.Keys
    && forall p :: p in o0 ==> o1[p] == if lo <= p < hi then Free else o0[p]
  }

  lemma GivenMore(o0: map<nat, Use>, o1: map<nat, Use>, lo: nat, p: nat, next: nat)
    requires GivenBack(o0, o1, lo, p) && lo <= p && next == p + 1 && p in o0
    ensures GivenBack(o0, o1[p := Free], lo, next)
  {}

  /** A 64-bit difference, as the unsigned number it is taken for. */
  function Unsigned(x: int): (u: nat)
    requires -0x8000_0000_0000_0000 <= x
    ensures x >= 0 ==> u == x
    ensures x < 0 ==> u >= 0x8000_0000_0000_0000
  {
    if x < 0 then x + 0x1_0000_0000_0000_0000 else x
  }

  class VM {
    var mem: Mem
    var freelist: nat
    ghost var free: seq<nat>
    ghost var pts: map<nat, Shape>
    ghost var owner: map<nat, Use>

    ghost function S(): Vm
      reads this
    {
      Vm(mem, freelist, free, pts, owner)
    }

    ghost predicate Valid()
      reads this
    {
      Sound(S())
    }

    /** Before kinit(): the kernel holds every page, and there is no address space. */
    constructor (m: Mem)
      requires 0 !in m
      ensures Valid() && free == [] && pts == map[] && owner.Keys == m.Keys && forall p :: p in m ==> owner[p] == Held
    {
      mem, freelist, free, pts, owner := m, 0, [], map[], map p | p in m :: Held;
    }

    /** kfree() of a page the kernel holds. */
    method FreeHeld(p: nat)
      requires Valid() && p in owner && owner[p] == Held
      modifies this
      ensures Valid() && pts == old(pts) && owner == old(owner)[p := Free]
    {
      GiveSound(S(), p);
      Kfree(p);
    }

    /** freerange(), of the pages lo up to hi, all held by the kernel. */
    method FreeRange(lo: nat, hi: nat)
      requires Valid() && lo <= hi && forall p :: lo <= p < hi ==> p in owner && owner[p] == Held
      modifies this
      ensures Valid() && pts == old(pts) && GivenBack(old(owner), owner, lo, hi)
    {
      var p := lo;
      while p < hi
        invariant lo <= p <= hi && Valid() && pts == old(pts) && GivenBack(old(owner), owner, lo, p)
      {
        GivenMore(old(owner), owner, lo, p, p + 1);
        FreeHeld(p);
        p := p + 1;
      }
    }

    /** kalloc() */
    method Kalloc() returns (p: nat)
      requires Valid()
      modifies this
      ensures Valid()
      ensures p == 0 <==> old(free) == []
      ensures p == 0 ==> S() == old(S())
      ensures p != 0 ==> p == old(free)[0] && p in old(mem) && S() == Take(old(S()))
    {
      p := freelist;
      if p == 0 {
        assert free == [] by {
          if free != [] { TakeSound(S()); }
        }
        return;
      }
      TakeSound(S());
      freelist := mem[p][0];
      mem := mem[p := Filled(0x0505_0505_0505_0505)];
      free, owner := free[1..], owner[p := Held];
    }

    /** kfree() of an address; the pages of the allocator are those in `mem`. */
    method KfreeAt(pa: nat) returns (panicked: bool)
      modifies this
      ensures panicked <==> pa % PGSIZE != 0 || pa / PGSIZE !in old(mem)
      ensures panicked ==> S() == old(S())
      ensures !panicked ==> S() == Give(old(S()), pa / PGSIZE)
    {
      if pa % PGSIZE != 0 || pa / PGSIZE !in mem {
        return true;
      }
      Kfree(pa / PGSIZE);
      return false;
    }

    /** kfree() of a page of the allocator. */
    method Kfree(p: nat)
      requires p in mem
      modifies this
      ensures S() == Give(old(S()), p)
    {
      var page := Filled(0x0101_0101_0101_0101);
      mem := mem[p := page[0 := freelist]];
      freelist := p;
      free, owner := [p] + free, owner[p := Free];
    }

    /** Overwrite a page the kernel holds. */
    method Store(p: nat, page: Page)
      requires Valid() && p in owner && owner[p] == Held
      modifies this`mem
      ensures Valid() && S() == old(S()).(mem := old(mem)[p := page])
    {
      NonTableWrite(mem, pts, owner, p, page);
      ListUsed(mem, freelist, free, owner, p, page);
      mem := mem[p := page];
    }
  
    /** *pte = PA2PTE(child) | PTE_V */
    method LinkTable(r: nat, v: nat, level: nat, table: nat, child: nat)
      requires r in pts && pts[r].root == r && r in mem && v < MAXVPN && 1 <= level <= 2
      requires level == 1 ==> v / 512 / 512 in pts[r].mid && pts[r].mid[v / 512 / 512] in mem
      requires table == TableAt(pts[r], level, v)
      modifies this`mem, this`pts, this`owner
      ensures S() == Linked(old(S()), r, v, level, child)
    {
      LinkedWord(S(), r, v, level, child);
      ghost var s1 := Linked(S(), r, v, level, child);
      mem := Poke(mem, table, Px(level, v * PGSIZE), TablePte(child));
      pts, owner := s1.pts, s1.owner;
    }

    /** The allocating branch of walk(): a fresh table is linked in. */
    method AddTable(r: nat, v: nat, level: nat, table: nat) returns (child: nat)
      requires Valid() && r in pts && v < MAXVPN && 1 <= level <= 2
      requires HasTable(pts[r], level, v) && table == TableAt(pts[r], level, v) && !HasTable(pts[r], level - 1, v)
      modifies this
      ensures Valid() && r in pts
      ensures child == 0 ==> S() == old(S()) && free == []
      ensures child != 0 ==>
                Grew(old(S()), S(), r) && HasTable(pts[r], level - 1, v) && child == TableAt(pts[r], level - 1, v)
      ensures |old(free)| <= |free| + 1
    {
      child := Kalloc();
      if child == 0 {
        return;
      }
      Store(child, ZeroPage());
      assert S() == Fresh(old(S()));
      LinkedSound(S(), r, v, level, child);
      LinkedGrew(old(S()), r, v, level);
      LinkTable(r, v, level, table, child);
    }

    /** One level of walk(): the next table down, 0 if it is missing and may not
        or cannot be allocated. */
    method WalkStep(r: nat, v: nat, level: nat, table: nat, alloc: bool) returns (child: nat)
      requires Valid() && r in pts && v < MAXVPN && 1 <= level <= 2
      requires HasTable(pts[r], level, v) && table == TableAt(pts[r], level, v)
      modifies this
      ensures Valid() && r in pts && Grew(old(S()), S(), r)
      ensures child != 0 ==> HasTable(pts[r], level - 1, v) && child == TableAt(pts[r], level - 1, v)
      ensures child == 0 ==> !HasTable(pts[r], level - 1, v) && (alloc ==> free == [])
      ensures !alloc || child == 0 ==> S() == old(S())
      ensures |old(free)| <= |free| + 1
    {
      WalkEntry(S(), r, v, level);
      GrewRefl(S(), r);
      var pte := mem[table][Px(level, v * PGSIZE)];
      if PteValid(pte) {
        TableInMem(S(), r, v, level - 1);
        return PtePage(pte);
      }
      if !alloc {
        return 0;
      }
      child := AddTable(r, v, level, table);
    }

    /** walk(): the level-0 table with the entry of page v, or 0. */
    method Walk(r: nat, v: nat, alloc: bool) returns (table: nat)
      requires Valid() && r in pts && v < MAXVPN
      modifies this
      ensures Valid() && r in pts && Grew(old(S()), S(), r)
      ensures table != 0 ==> v / 512 in pts[r].low && table == pts[r].low[v / 512]
      ensures table == 0 ==> v / 512 !in pts[r].low && (alloc ==> free == [])
      ensures !alloc ==> S() == old(S())
      ensures |old(free)| <= |free| + if table == 0 then 1 else 2
    {
      table := r;
      var level := 2;
      while level > 0
        invariant 0 <= level <= 2 && Valid() && r in pts && Grew(old(S()), S(), r)
        invariant HasTable(pts[r], level, v) && table == TableAt(pts[r], level, v) && table != 0
        invariant (!alloc ==> S() == old(S())) && |old(free)| <= |free| + 2 - level
      {
        ghost var s1 := S();
        table := WalkStep(r, v, level, table, alloc);
        GrewTrans(old(S()), s1, S(), r);
        if table == 0 {
          return;
        }
        TableInMem(S(), r, v, level - 1);
        level := level - 1;
      }
    }
  
    /** walk() of an address. */
    method WalkAt(r: nat, va: nat, alloc: bool) returns (panicked: bool, table: nat)
      requires Valid() && r in pts
      modifies this
      ensures Valid() && r in pts && Grew(old(S()), S(), r)
      ensures panicked <==> va >= PGSIZE * MAXVPN
      ensures panicked || !alloc ==> S() == old(S())
      ensures !panicked && table != 0 ==> va / PGSIZE / 512 in pts[r].low && table == pts[r].low[va / PGSIZE / 512]
      ensures !panicked && table == 0 ==> va / PGSIZE / 512 !in pts[r].low && (alloc ==> |old(free)| <= 1)
    {
      if va >= PGSIZE * MAXVPN {
        GrewRefl(S(), r);
        return true, 0;
      }
      var v := va / PGSIZE;
      table := Walk(r, v, alloc);
      panicked := false;
    }

    /** *pte = w */
    method StorePte(r: nat, v: nat, table: nat, w: nat, ghost owner': map<nat, Use>)
      requires r in pts && v / 512 in pts[r].low && table == pts[r].low[v / 512] && table in mem
      modifies this`mem, this`pts, this`owner
      ensures S() == PutPte(old(S()), r, v, w, owner')
    {
      mem := Poke(mem, table, v % 512, w);
      pts, owner := WithLeaf(pts, r, v, w), owner';
    }

    /** One pass of mappages(): map a page the kernel holds as user page v. */
    method MapPage(r: nat, v: nat, p: nat, flags: nat) returns (ok: bool, panicked: bool)
      requires Valid() && r in pts && v < TRAPFRAME
      requires p in owner && owner[p] == Held && flags < 0x400 && PteValid(flags)
      modifies this
      ensures Valid() && r in pts
      ensures panicked <==> v in old(pts)[r].leaf
      ensures ok ==> !panicked
      ensures ok ==> Touched(old(S()), S(), r, p) && pts[r].leaf == old(pts)[r].leaf[v := MakePte(p, flags)]
      ensures ok ==> owner[p] == In(User(r, v)) && mem[p] == old(mem)[p]
      ensures !ok ==> Grew(old(S()), S(), r)
      ensures !ok && !panicked ==> |old(free)| <= 1
      ensures |old(free)| <= |free| + 2
    {
      var table := Walk(r, v, true);
      if table == 0 {
        return false, false;
      }
      LeafEntry(S(), r, v);
      if PteValid(mem[table][v % 512]) {
        return false, true;
      }
      MapUserSound(S(), r, v, p, flags);
      TablesInUse(pts, owner, r);
      GrewMap(old(S()), S(), r, v, p, flags);
      StorePte(r, v, table, MakePte(p, flags), owner[p := In(User(r, v))]);
      return true, false;
    }

    /** One pass of mappages(): the page is mapped and was not the last, or it ends. */
    method MapNext(r: nat, v: nat, a: nat, p: nat, x: nat, flags: nat, next: nat, last: nat, ghost to: nat,
                   ghost s0: Vm)
      returns (done: bool, res: int, panicked: bool, ghost end: nat)
      requires Valid() && r in pts && v <= a < to <= TRAPFRAME && x == PageAt(v, p, a) && next == a + 1
      requires flags < 0x400 && PteValid(flags) && to == last + 1
      requires Ranged(s0, S(), r, v, a, p, flags) && |s0.free| <= |free| + 2 * (a - v)
      requires x in s0.owner && s0.owner[x] == Held
      modifies this
      ensures Valid() && r in pts && Mapping(s0, S(), r, v, next, end, to, p, flags, done, res, panicked)
    {
      var ok;
      ok, panicked := MapPage(r, a, x, flags);
      if ok {
        RangedMore(s0, old(S()), S(), r, v, a, next, p, x, flags);
        done, res, end := a == last, 0, next;
      } else {
        RangedGrew(s0, old(S()), S(), r, v, a, p, flags);
        done, res, end := true, if panicked then 0 else -1, a;
      }
    }

    /** The loop of mappages() over the pages from v to `last`. It stops at the first
        page that is mapped already or has no room for its tables. */
    method MapRange(r: nat, v: nat, last: nat, p: nat, flags: nat, ghost to: nat)
      returns (res: int, panicked: bool, ghost end: nat)
      requires Valid() && r in pts && v < to <= TRAPFRAME && flags < 0x400 && PteValid(flags) && to == last + 1
      requires forall q :: p <= q < PageAt(v, p, to) ==> q in owner && owner[q] == Held
      modifies this
      ensures Valid() && r in pts && MappedTo(old(S()), S(), r, v, end, to, p, flags, res, panicked)
    {
      var a, x, done := v, p, false;
      res, panicked, end := 0, false, v;
      while !done
        invariant Valid() && r in pts && v <= a && x == PageAt(v, p, a)
        invariant Mapping(old(S()), S(), r, v, a, end, to, p, flags, done, res, panicked)
        decreases !done, to - a
      {
        var next := a + 1;
        done, res, panicked, end := MapNext(r, v, a, p, x, flags, next, last, to, old(S()));
        a, x := next, x + 1;
      }
    }

    /** mappages() of the user addresses from va on, which are the pages from v to `to`,
        onto the pages from p on. */
    method MapPages(r: nat, va: nat, size: nat, pa: nat, flags: nat, ghost v: nat, ghost to: nat, ghost p: nat)
      returns (res: int, panicked: bool, ghost end: nat)
      requires Valid() && r in pts && va + size <= PGSIZE * TRAPFRAME && flags < 0x400 && PteValid(flags)
      requires v == va / PGSIZE && to == (va + size) / PGSIZE && p == pa / PGSIZE
      requires forall q :: p <= q < PageAt(v, p, to) ==> q in owner && owner[q] == Held
      modifies this
      ensures Valid() && r in pts
      ensures va % PGSIZE != 0 || size % PGSIZE != 0 || size == 0 ==> panicked && S() == old(S())
      ensures va % PGSIZE == 0 && size % PGSIZE == 0 && size != 0 ==>
                MappedTo(old(S()), S(), r, v, end, to, p, flags, res, panicked)
    {
      end := v;
      if va % PGSIZE != 0 || size % PGSIZE != 0 || size == 0 {
        return 0, true, end;
      }
      LastPage(va, size);
      var first, last := va / PGSIZE, (va + size - PGSIZE) / PGSIZE;
      res, panicked, end := MapRange(r, first, last, pa / PGSIZE, flags, to);
    }

    /** One pass of uvmunmap(). */
    method UnmapPage(r: nat, v: nat, doFree: bool, ghost next: nat)
      requires Valid() && r in pts && v < MAXVPN && (doFree <==> v < TRAPFRAME) && next == v + 1
      modifies this
      ensures Valid() && Unmapped(old(S()), S(), r, v, next)
    {
      var table := Walk(r, v, false);
      if table == 0 {
        assert v !in pts[r].leaf by { assert Repr(mem, pts[r]); }
        UnmappedNone(S(), r, v, next);
        return;
      }
      LeafEntry(S(), r, v);
      var pte := mem[table][v % 512];
      if !PteValid(pte) {
        UnmappedNone(S(), r, v, next);
        return;
      }
      TablesInUse(pts, owner, r);
      if doFree {
        UnmapUserFree(S(), r, v);
        UserPage(pts, owner, r, v, next);
        UnmapUser(S(), r, v, next);
        Kfree(PtePage(pte));
      } else {
        SpecialSound(S(), r, v, 0);
        NotMapped(pts, owner, r, v, next);
        UnmapSpecial(S(), r, v, next);
      }
      StorePte(r, v, table, 0, owner);
    }

    /** uvmunmap() of the pages v up to, not including, end. */
    method UvmUnmap(r: nat, v: nat, end: nat, doFree: bool)
      requires Valid() && r in pts && v <= end <= MAXVPN && (if doFree then end <= TRAPFRAME else TRAPFRAME <= v)
      modifies this
      ensures Valid() && Unmapped(old(S()), S(), r, v, end)
    {
      UnmappedEmpty(S(), r, v);
      var a := v;
      while a < end
        invariant v <= a <= end && Valid() && Unmapped(old(S()), S(), r, v, a)
      {
        ghost var s1 := S();
        var next := a + 1;
        UnmapPage(r, a, doFree, next);
        UnmappedTrans(old(S()), s1, S(), r, v, a, next);
        a := next;
      }
      UnmappedTo(old(S()), S(), r, v, a, end);
    }

    /** kalloc(), and the page filled. */
    method TakePage(page: Page) returns (p: nat)
      requires Valid()
      modifies this
      ensures Valid() && (p == 0 <==> old(free) == [])
      ensures p == 0 ==> S() == old(S())
      ensures p != 0 ==> p == old(free)[0] && p in old(mem) && S() == TakenAs(old(S()), page)
      ensures p != 0 ==> p in old(owner) && old(owner)[p] == Free && owner[p] == Held
    {
      p := Kalloc();
      if p != 0 {
        assert p in old(free);
        Store(p, page);
      }
    }

    /** Allocate a page with the given contents and map it as user page v, or do
        neither: the body of the loops of uvmalloc() and uvmcopy(), and vmfault(). */
    method AddPage(r: nat, v: nat, ghost next: nat, page: Page, flags: nat) returns (p: nat)
      requires Valid() && r in pts && v < TRAPFRAME && v !in pts[r].leaf && next == v + 1
      requires flags < 0x400 && PteValid(flags)
      modifies this
      ensures Valid() && r in pts
      ensures p != 0 ==> Added(old(S()), S(), r, v, next, Shown(flags, page)) && p == PtePage(pts[r].leaf[v])
      ensures p == 0 ==> Grew(old(S()), S(), r) && |old(free)| <= 2
      ensures |old(free)| <= |free| + 3
    {
      p := TakePage(page);
      if p == 0 {
        GrewRefl(S(), r);
        return;
      }
      var ok, panicked := MapPage(r, v, p, flags);
      if ok {
        PteRoundTrip(p, flags);
        TakenMapped(old(S()), S(), r, v, next, page, flags);
      } else {
        GiveSound(S(), p);
        TakenReturned(old(S()), S(), r, page);
        Kfree(p);
        p := 0;
      }
    }

    /** The loop of uvmalloc(), in pages. */
    method GrowTo(r: nat, first: nat, end: nat, flags: nat) returns (ok: bool)
      requires Valid() && r in pts && first <= end <= TRAPFRAME && flags < 0x400 && PteValid(flags)
      requires Vacant(pts[r].leaf, first, TRAPFRAME)
      modifies this
      ensures Valid() && r in pts
      ensures ok ==> FilledWith(old(S()), S(), r, first, end, Zeroes(flags))
      ensures !ok ==> Grew(old(S()), S(), r) && |old(free)| < 3 * (end - first)
    {
      var a := first;
      FilledNone(S(), r, a, Zeroes(flags));
      while a < end
        invariant first <= a <= end && Valid() && FilledWith(old(S()), S(), r, first, a, Zeroes(flags))
        invariant |old(free)| <= |free| + 3 * (a - first)
      {
        ghost var s1 := S();
        var next := a + 1;
        var p := AddPage(r, a, next, ZeroPage(), flags);
        if p == 0 {
          ghost var s2 := S();
          UvmUnmap(r, first, a, true);
          VacantRange(old(pts), old(owner), r, first, a);
          RolledBack(old(S()), s1, s2, S(), r, first, a, Zeroes(flags));
          return false;
        }
        FilledAdd(old(S()), s1, S(), r, first, a, next, Zeroes(flags));
        a := next;
      }
      FilledTo(old(S()), S(), r, first, a, end, Zeroes(flags));
      ok := true;
    }

    /** uvmalloc(); 0 means out of memory. */
    method UvmAlloc(r: nat, oldsz: nat, newsz: nat, xperm: nat) returns (sz: nat)
      requires Valid() && SizeOk(S(), r, oldsz) && newsz <= PGSIZE * TRAPFRAME
      requires xperm == 0 || xperm == 4 || xperm == 8 || xperm == 12
      modifies this
      ensures Valid() && r in pts
      ensures newsz < oldsz ==> sz == oldsz && S() == old(S())
      ensures oldsz <= newsz ==> sz == newsz || sz == 0
      ensures sz == newsz ==> SizeOk(S(), r, sz)
      ensures sz == newsz ==>
                FilledWith(old(S()), S(), r, PageRoundUp(oldsz), PageRoundUp(newsz), Zeroes(UserFlags(xperm)))
      ensures sz == 0 < newsz ==> Grew(old(S()), S(), r) && |old(free)| < 3 * (PageRoundUp(newsz) - PageRoundUp(oldsz))
    {
      if newsz < oldsz {
        return oldsz;
      }
      RoundUpBounds(oldsz, newsz);
      var first, end, flags := PageRoundUp(oldsz), PageRoundUp(newsz), UserFlags(xperm);
      var ok := GrowTo(r, first, end, flags);
      if !ok {
        return 0;
      }
      GrownSize(old(S()), S(), r, first, end, newsz, Zeroes(flags));
      return newsz;
    }

    /** uvmdealloc() */
    method UvmDealloc(r: nat, oldsz: nat, newsz: nat) returns (sz: nat)
      requires Valid() && SizeOk(S(), r, oldsz)
      modifies this
      ensures Valid() && sz == (if newsz < oldsz then newsz else oldsz) && SizeOk(S(), r, sz)
      ensures newsz >= oldsz ==> S() == old(S())
      ensures newsz < oldsz ==> Unmapped(old(S()), S(), r, PageRoundUp(newsz), PageRoundUp(oldsz))
    {
      if newsz >= oldsz {
        return oldsz;
      }
      RoundUpBounds(newsz, oldsz);
      var first, end := PageRoundUp(newsz), PageRoundUp(oldsz);
      if first < end {
        UvmUnmap(r, first, end, true);
      } else {
        UnmappedEmpty(S(), r, first);
        UnmappedTo(S(), S(), r, first, first, end);
      }
      ShrunkSize(old(S()), S(), r, first, end, newsz);
      return newsz;
    }

    /** The entry of page v, 0 if there is no table for it: what uvmcopy(),
        walkaddr() and ismapped() look at. */
    method Pte(r: nat, v: nat) returns (pte: nat)
      requires Valid() && r in pts && v < MAXVPN
      modifies this
      ensures S() == old(S()) && (PteValid(pte) <==> v in pts[r].leaf)
      ensures v in pts[r].leaf ==> pte == pts[r].leaf[v]
    {
      var table := Walk(r, v, false);
      if table == 0 {
        assert v !in pts[r].leaf by { assert Repr(mem, pts[r]); }
        return 0;
      }
      LeafEntry(S(), r, v);
      return mem[table][v % 512];
    }

    /** walkaddr() */
    method WalkAddr(r: nat, va: nat) returns (p: nat)
      requires Valid() && r in pts
      modifies this
      ensures S() == old(S())
      ensures p != 0 ==>
                && va / PGSIZE in pts[r].leaf && PteUser(pts[r].leaf[va / PGSIZE])
                && p == PtePage(pts[r].leaf[va / PGSIZE])
      ensures va / PGSIZE in pts[r].leaf && va / PGSIZE < MAXVPN && PteUser(pts[r].leaf[va / PGSIZE]) ==>
        p == PtePage(pts[r].leaf[va / PGSIZE])
    {
      var v := va / PGSIZE;
      if v >= MAXVPN {
        return 0;
      }
      var pte := Pte(r, v);
      if !PteValid(pte) || !PteUser(pte) {
        return 0;
      }
      return PtePage(pte);
    }

    /** One pass of uvmcopy(). */
    method CopyPage(r: nat, q: nat, i: nat, next: nat, ghost s0: Vm) returns (ok: bool)
      requires Valid() && Sound(s0) && r in s0.pts && r != q && i < TRAPFRAME && next == i + 1
      requires FilledWith(s0, S(), q, 0, i, Copies(View(s0, r))) && Vacant(s0.pts[q].leaf, 0, TRAPFRAME)
      modifies this
      ensures Valid()
      ensures ok ==> FilledWith(s0, S(), q, 0, next, Copies(View(s0, r)))
      ensures !ok ==> Grew(old(S()), S(), q) && |old(free)| <= 2
      ensures |old(free)| <= |free| + 3
    {
      ghost var want := Copies(View(s0, r));
      var pte := Pte(r, i);
      if !PteValid(pte) {
        assert !Has(want, i);
        FilledSkip(s0, S(), q, 0, i, next, want);
        return true;
      }
      OtherPage(s0, S(), r, q, 0, i, i);
      MappedPage(s0, r, i);
      FlagsOfPte(pte);
      ghost var s1 := S();
      var p := AddPage(q, i, next, mem[PtePage(pte)], PteFlags(pte));
      if p == 0 {
        return false;
      }
      assert Has(want, i) && At(want, i) == View(s0, r)[i];
      FilledAdd(s0, s1, S(), q, 0, i, next, want);
      return true;
    }

    /** uvmcopy() from address space r to address space q, in pages. */
    method UvmCopy(r: nat, q: nat, end: nat) returns (ok: bool)
      requires Valid() && r in pts && q in pts && r != q && end <= TRAPFRAME
      requires Vacant(pts[r].leaf, end, TRAPFRAME) && Vacant(pts[q].leaf, 0, TRAPFRAME)
      modifies this
      ensures Valid() && q in pts && r in pts && View(S(), r) == View(old(S()), r)
      ensures pts[r] == old(pts)[r] && Resized(old(S()), S(), q)
      ensures ok ==> View(S(), q) == View(old(S()), r) && Vacant(pts[q].leaf, end, TRAPFRAME)
      ensures !ok ==> Grew(old(S()), S(), q) && |old(free)| < 3 * end
    {
      ghost var want := Copies(View(S(), r));
      var i := 0;
      FilledNone(S(), q, i, want);
      while i < end
        invariant 0 <= i <= end && Valid() && FilledWith(old(S()), S(), q, 0, i, want) && |old(free)| <= |free| + 3 * i
      {
        ghost var s1 := S();
        var next := i + 1;
        ok := CopyPage(r, q, i, next, old(S()));
        if !ok {
          ghost var s2 := S();
          UvmUnmap(q, 0, i, true);
          VacantRange(old(pts), old(owner), q, 0, i);
          RolledBack(old(S()), s1, s2, S(), q, 0, i, want);
          OthersSeeTheSame(old(S()), S(), r, q, 0, 0);
          ResizedGrew(old(S()), S(), q);
          return;
        }
        i := next;
      }
      FilledTo(old(S()), S(), q, 0, i, end, want);
      CopySeesTheSame(old(S()), S(), r, q, end);
      OthersSeeTheSame(old(S()), S(), r, q, 0, end);
      ResizedFilled(old(S()), S(), q, 0, end, want);
      ok := true;
    }

    /** vmfault() at an address in page v, for a process of size sz with page table
        r; 0 means that the address is not the process's, or is mapped already, or
        that there is no memory. */
    method VmFault(r: nat, sz: nat, va: nat, v: nat, ghost next: nat) returns (p: nat)
      requires Valid() && ProcessSpace(S(), r, sz) && v == va / PGSIZE && next == v + 1
      modifies this
      ensures Valid() && ProcessSpace(S(), r, sz) && Resized(old(S()), S(), r)
      ensures p != 0 ==> va < sz && v !in old(pts)[r].leaf
      ensures p != 0 ==>
                Added(old(S()), S(), r, v, next, Shown(UserFlags(4), ZeroPage())) && p == PtePage(pts[r].leaf[v])
      ensures p == 0 ==> Grew(old(S()), S(), r) && (va >= sz || v in old(pts)[r].leaf || |old(free)| <= 2)
    {
      GrewRefl(S(), r);
      ResizedGrew(S(), S(), r);
      if va >= sz {
        return 0;
      }
      BelowSize(va, v, sz);
      var pte := Pte(r, v);
      if PteValid(pte) {
        return 0;
      }
      p := AddPage(r, v, next, ZeroPage(), UserFlags(4));
      if p != 0 {
        AddedSize(old(S()), S(), r, v, next, Shown(UserFlags(4), ZeroPage()), sz);
        ResizedAdded(old(S()), S(), r, v, next, Shown(UserFlags(4), ZeroPage()));
        SameTop(old(pts)[r].leaf, pts[r].leaf);
      } else {
        ResizedGrew(old(S()), S(), r);
      }
    }

    /** The branch of growproc() for a growing process. */
    method GrowBranch(r: nat, oldsz: nat, newsz: nat) returns (sz: nat, res: int)
      requires Valid() && ProcessSpace(S(), r, oldsz) && oldsz < newsz
      modifies this
      ensures Valid() && ProcessSpace(S(), r, sz) && Resized(old(S()), S(), r)
      ensures GrownTo(old(S()), S(), r, oldsz, newsz, sz, res)
    {
      GrewRefl(S(), r);
      ResizedGrew(S(), S(), r);
      if newsz > PGSIZE * TRAPFRAME {
        return oldsz, -1;
      }
      sz := UvmAlloc(r, oldsz, newsz, 4);
      if sz == 0 {
        ResizedGrew(old(S()), S(), r);
        return oldsz, -1;
      }
      RoundUpBounds(oldsz, newsz);
      ResizedFilled(old(S()), S(), r, PageRoundUp(oldsz), PageRoundUp(newsz), Zeroes(UserFlags(4)));
      SameTop(old(pts)[r].leaf, pts[r].leaf);
      res := 0;
    }

    /** Its branch for a shrinking one; sizes are unsigned, so that a size below zero
        is a very large one. */
    method ShrinkBranch(r: nat, oldsz: nat, newsz: nat) returns (sz: nat)
      requires Valid() && ProcessSpace(S(), r, oldsz)
      modifies this
      ensures Valid() && Resized(old(S()), S(), r) && ProcessSpace(S(), r, sz)
      ensures newsz >= oldsz ==> S() == old(S()) && sz == oldsz
      ensures newsz < oldsz ==> ShrunkTo(old(S()), S(), r, oldsz, sz) && sz == newsz
    {
      sz := UvmDealloc(r, oldsz, newsz);
      if newsz < oldsz {
        RoundUpBounds(newsz, oldsz);
        ResizedUnmapped(old(S()), S(), r, PageRoundUp(newsz), PageRoundUp(oldsz));
        SameTop(old(pts)[r].leaf, pts[r].leaf);
      } else {
        GrewRefl(S(), r);
        ResizedGrew(S(), S(), r);
      }
    }

    /** growproc(n), where newsz is the size plus n: the new size, and 0 or -1. */
    method Growproc(r: nat, oldsz: nat, n: int, newsz: int) returns (sz: nat, res: int)
      requires Valid() && ProcessSpace(S(), r, oldsz) && -0x8000_0000 <= n < 0x8000_0000 && newsz == oldsz + n
      modifies this
      ensures Valid() && ProcessSpace(S(), r, sz) && Resized(old(S()), S(), r)
      ensures n > 0 ==> GrownTo(old(S()), S(), r, oldsz, newsz, sz, res)
      ensures n < 0 <= newsz ==> res == 0 && sz == newsz && ShrunkTo(old(S()), S(), r, oldsz, sz)
      ensures n == 0 || newsz < 0 ==> res == 0 && sz == oldsz && S() == old(S())
    {
      res := 0;
      if n > 0 {
        sz, res := GrowBranch(r, oldsz, newsz);
      } else if n < 0 {
        sz := ShrinkBranch(r, oldsz, Unsigned(newsz));
      } else {
        sz := oldsz;
        GrewRefl(S(), r);
        ResizedGrew(S(), S(), r);
      }
    }

    /** sys_sbrk(n), eager or lazy, where newsz is the size plus n: the new size, and
        the old size or -1. */
    method Sbrk(r: nat, oldsz: nat, n: int, eager: bool, newsz: int) returns (sz: nat, res: int)
      requires Valid() && ProcessSpace(S(), r, oldsz) && -0x8000_0000 <= n < 0x8000_0000 && newsz == oldsz + n
      modifies this
      ensures Valid() && ProcessSpace(S(), r, sz) && Resized(old(S()), S(), r) && (res == oldsz || res == -1)
      ensures eager && n > 0 ==> GrownTo(old(S()), S(), r, oldsz, newsz, sz, if res == -1 then -1 else 0)
      ensures n < 0 <= newsz ==> res != -1 && sz == newsz && ShrunkTo(old(S()), S(), r, oldsz, sz)
      ensures n == 0 || newsz < 0 ==> res != -1 && sz == oldsz && S() == old(S())
      ensures !eager && n > 0 ==> S() == old(S()) && (res == -1 <==> newsz > PGSIZE * TRAPFRAME)
      ensures !eager && n > 0 ==> sz == if res == -1 then oldsz else newsz
    {
      if eager || n < 0 {
        sz, res := Growproc(r, oldsz, n, newsz);
        if res == 0 {
          res := oldsz;
        }
        return;
      }
      GrewRefl(S(), r);
      ResizedGrew(S(), S(), r);
      if newsz > PGSIZE * TRAPFRAME {
        return oldsz, -1;
      }
      RoundUpBounds(oldsz, newsz);
      return newsz, oldsz;
    }

    /** The recursive call of freewalk() for entry k, and the clearing of the entry. */
    method FreeKid(table: nat, k: nat, kid: nat, ghost sh: Shape, ghost owner0: map<nat, Use>, ghost r: nat,
                   ghost level: nat, ghost idx: nat,
                   ghost s0: Vm, ghost sub: nat, ghost lo: nat, ghost c: nat, ghost hi: nat)
      requires Valid() && Detached(S(), sh, owner0, r) && level <= 2 && sub < level && lo <= c && hi == c + 1 && k < 512
      requires FreedTables(s0, S(), owner0, r, sub, lo, c, table)
      requires HasNode(sh, sub, c) && kid == Node(sh, sub, c) && Intact(mem, sh, sub, c)
      requires HeldUnder(S(), owner0, r, sub, c)
      requires table in owner && owner[table] == Held && owner0[table] == In(NodePlace(r, level, idx))
      modifies this
      ensures Valid() && FreedTables(s0, S(), owner0, r, sub, lo, hi, table)
      ensures table in mem && table in owner && owner[table] == Held && mem[table] == old(mem)[table][k := 0]
      decreases level, 0
    {
      ghost var s1 := S();
      FreeWalk(kid, sh, owner0, r, sub, c, hi);
      FreedMore(s0, s1, S(), owner0, r, sub, lo, c, hi, table);
      TableKept(s1, S(), owner0, r, sub, c, hi, table, level, idx);
      FreedStore(s0, S(), owner0, r, sub, lo, hi, table, mem[table][k := 0]);
      Store(table, mem[table][k := 0]);
    }

    /** One entry of freewalk(): a lower table is freed and its link cleared; no
        entry is a mapping, so the panic is not reached. */
    method FreeEntry(table: nat, k: nat, ghost sh: Shape, ghost owner0: map<nat, Use>, ghost r: nat, ghost level: nat,
                     ghost idx: nat,
                     ghost s0: Vm, ghost sub: int, ghost lo: nat, ghost c: nat, ghost hi: nat)
      requires Valid() && Detached(s0, sh, owner0, r) && level <= 2 && HasNode(sh, level, idx)
      requires table == Node(sh, level, idx)
      requires Intact(s0.mem, sh, level, idx) && HeldUnder(s0, owner0, r, level, idx)
      requires sub == level - 1 && FreedTables(s0, S(), owner0, r, sub, lo, c, table)
      requires k < 512 && lo <= c && c == Kid(idx, k) && hi == c + 1
      requires table in owner && owner[table] == Held && mem[table][k] == Entry(s0.mem, table, k)
      modifies this
      ensures Valid() && FreedTables(s0, S(), owner0, r, sub, lo, hi, table)
      ensures table in mem && table in owner && owner[table] == Held
      ensures forall j :: k < j < 512 ==> mem[table][j] == old(mem)[table][j]
      decreases level, 1
    {
      EntryKinds(s0.mem, sh, level, sub, idx, k, c);
      var pte := mem[table][k];
      if PteValid(pte) && PteTable(pte) {
        NextKid(s0, S(), sh, owner0, r, level, idx, lo, c, k, table, sub);
        FreeKid(table, k, PtePage(pte), sh, owner0, r, level, idx, s0, sub, lo, c, hi);
      } else {
        assert !PteValid(pte);
        NoKid(sh, owner0, r, sub, c, hi);
        FreedSkip(s0, S(), owner0, r, sub, lo, c, hi, table);
      }
    }

    /** freewalk() of a page-table page with no mappings below it. */
    method FreeWalk(table: nat, ghost sh: Shape, ghost owner0: map<nat, Use>, ghost r: nat, ghost level: nat,
                    ghost idx: nat, ghost next: nat)
      requires Valid() && Detached(S(), sh, owner0, r) && level <= 2 && next == idx + 1
      requires HasNode(sh, level, idx) && table == Node(sh, level, idx)
      requires Intact(mem, sh, level, idx) && HeldUnder(S(), owner0, r, level, idx)
      modifies this
      ensures Valid() && FreedTables(old(S()), S(), owner0, r, level, idx, next, 0)
      decreases level, 2
    {
      ghost var sub, lo := level - 1, Kid(idx, 0);
      ghost var c := lo;
      FreedNone(S(), owner0, r, sub, lo, table);
      var k := 0;
      while k < 512
        invariant k <= 512 && c == Kid(idx, k) && lo <= c
        invariant Valid() && FreedTables(old(S()), S(), owner0, r, sub, lo, c, table)
        invariant table in mem && table in owner && owner[table] == Held
        invariant forall j :: k <= j < 512 ==> mem[table][j] == old(mem)[table][j]
      {
        ghost var hi := c + 1;
        FreeEntry(table, k, sh, owner0, r, level, idx, old(S()), sub, lo, c, hi);
        k := k + 1;
        c := hi;
      }
      FreedNode(old(S()), S(), owner0, r, level, idx, next, lo, c, table, sub);
      GiveSound(S(), table);
      Kfree(table);
    }

    /** freewalk() of the root: an address space without mappings is given up. */
    method FreeTables(r: nat)
      requires Valid() && r in pts && pts[r].leaf == map[]
      modifies this
      ensures Valid() && FreedTables(Detach(old(S()), r), S(), old(owner), r, 2, 0, 1, 0)
    {
      ghost var s1 := S();
      DetachSound(s1, r);
      DetachedReady(s1, r);
      pts, owner := Detach(s1, r).pts, Detach(s1, r).owner;
      FreeWalk(r, s1.pts[r], s1.owner, r, 2, 0, 1);
    }

    /** uvmfree() of an address space whose mappings all lie below page end. */
    method UvmFree(r: nat, end: nat)
      requires Valid() && r in pts && end <= TRAPFRAME && AllBelow(pts[r].leaf, end)
      modifies this
      ensures Valid() && Gone(old(S()), S(), r)
    {
      UsersInRange(S(), r, end);
      if end > 0 {
        UvmUnmap(r, 0, end, true);
      } else {
        UnmappedEmpty(S(), r, 0);
        UnmappedTo(S(), S(), r, 0, 0, end);
      }
      ghost var s1 := S();
      WithoutAll(old(pts)[r].leaf, end);
      AllUnder(s1, r);
      FreeTables(r);
      FreedAll(old(S()), s1, S(), r, end);
    }

    /** uvmcreate(); 0 if there is no memory. */
    method UvmCreate() returns (r: nat)
      requires Valid()
      modifies this
      ensures Valid() && (r == 0 <==> old(free) == [])
      ensures r == 0 ==> S() == old(S())
      ensures r != 0 ==> r in pts && Opened(old(S()), S(), r) && pts[r].leaf == map[] && |old(free)| == |free| + 1
    {
      r := TakePage(ZeroPage());
      if r != 0 {
        RootedSound(S(), r);
        RootedOpened(old(S()));
        pts, owner := Rooted(S(), r).pts, Rooted(S(), r).owner;
      }
    }

    /** mappages() of the trampoline or the trapframe at page v, with entry w. */
    method MapSpecial(r: nat, v: nat, w: nat) returns (ok: bool)
      requires Valid() && r in pts && TRAPFRAME <= v < MAXVPN && v !in pts[r].leaf && PteValid(w)
      modifies this
      ensures Valid() && r in pts && Changed(old(S()), S(), r, 0, 0)
      ensures pts[r].leaf == if ok then old(pts)[r].leaf[v := w] else old(pts)[r].leaf
      ensures !ok ==> |old(free)| <= 1
      ensures |old(free)| <= |free| + 2
    {
      var table := Walk(r, v, true);
      if table == 0 {
        return false;
      }
      LeafEntry(S(), r, v);
      assert !PteValid(mem[table][v % 512]);
      SpecialSound(S(), r, v, w);
      TablesInUse(pts, owner, r);
      GrewSpecial(old(S()), S(), r, v, w);
      StorePte(r, v, table, w, owner);
      return true;
    }

    /** The second mapping of proc_pagetable(); if it fails, the first is undone. */
    method MapTrapframe(r: nat, ghost trampoline: nat, trapframe: nat) returns (ok: bool)
      requires Valid() && r in pts && pts[r].leaf == OnePage(trampoline) && PteValid(trapframe)
      modifies this
      ensures Valid() && r in pts && Changed(old(S()), S(), r, 0, 0)
      ensures pts[r].leaf == if ok then TwoPages(trampoline, trapframe) else map[]
      ensures if ok then |old(free)| <= |free| + 2 else |old(free)| <= 1
    {
      OnePageGone(trampoline);
      ok := MapSpecial(r, TRAPFRAME, trapframe);
      if !ok {
        ghost var s2 := S();
        UvmUnmap(r, TRAMPOLINE, MAXVPN, false);
        TopUnmapped(s2, S(), r, TRAMPOLINE, MAXVPN);
        ChangedTrans(old(S()), s2, S(), r, 0, 0);
      }
    }

    /** The two mappings of proc_pagetable(), or none of them. */
    method MapTwo(r: nat, trampoline: nat, trapframe: nat) returns (ok: bool)
      requires Valid() && r in pts && pts[r].leaf == map[] && PteValid(trampoline) && PteValid(trapframe)
      modifies this
      ensures Valid() && r in pts && Changed(old(S()), S(), r, 0, 0)
      ensures pts[r].leaf == if ok then TwoPages(trampoline, trapframe) else map[]
      ensures if ok then |old(free)| <= |free| + 4 else |old(free)| <= 3
    {
      ok := MapSpecial(r, TRAMPOLINE, trampoline);
      if ok {
        ghost var s1 := S();
        ok := MapTrapframe(r, trampoline, trapframe);
        ChangedTrans(old(S()), s1, S(), r, 0, 0);
      }
    }

    /** The rest of proc_pagetable(): the two mappings, or else the new address
        space is freed; `made` is the state just before that. */
    method MapOrFree(r: nat, trampoline: nat, trapframe: nat) returns (ok: bool, ghost made: Vm)
      requires Valid() && r in pts && pts[r].leaf == map[] && PteValid(trampoline) && PteValid(trapframe)
      modifies this
      ensures Valid() && Sound(made) && Changed(old(S()), made, r, 0, 0)
      ensures ok ==> S() == made && r in pts && pts[r].leaf == TwoPages(trampoline, trapframe)
      ensures !ok ==> Gone(made, S(), r)
      ensures if ok then |old(free)| <= |free| + 4 else |old(free)| <= 3
    {
      ok := MapTwo(r, trampoline, trapframe);
      made := S();
      if !ok {
        UvmFree(r, 0);
      }
    }

    /** proc_pagetable(), given the entries for the trampoline and the trapframe: an
        address space with just those two mappings, or nothing at all. */
    method ProcPagetable(trampoline: nat, trapframe: nat) returns (r: nat)
      requires Valid() && PteValid(trampoline) && PteValid(trapframe)
      modifies this
      ensures Valid()
      ensures r != 0 ==> r in pts && Opened(old(S()), S(), r) && pts[r].leaf == TwoPages(trampoline, trapframe)
      ensures r != 0 ==> ProcessSpace(S(), r, 0)
      ensures r == 0 ==> NothingLost(old(S()), S())
      ensures if r != 0 then |old(free)| <= |free| + 5 else |old(free)| <= 4
    {
      r := UvmCreate();
      if r != 0 {
        ghost var s1 := S();
        var ok, made := MapOrFree(r, trampoline, trapframe);
        OpenedMore(old(S()), s1, made, r);
        if ok {
          NewSpace(S(), r, trampoline, trapframe);
        } else {
          OpenedGone(old(S()), made, S(), r);
          r := 0;
        }
      }
    }

    /** proc_freepagetable() of the address space of a process of size sz. */
    method ProcFreePagetable(r: nat, sz: nat)
      requires Valid() && ProcessSpace(S(), r, sz)
      modifies this
      ensures Valid() && Gone(old(S()), S(), r)
    {
      var end := PageRoundUp(sz);
      RoundUpBounds(sz, sz);
      UvmUnmap(r, TRAMPOLINE, MAXVPN, false);
      ghost var s1 := S();
      TopUnmapped(old(S()), s1, r, TRAMPOLINE, MAXVPN);
      UvmUnmap(r, TRAPFRAME, TRAMPOLINE, false);
      ghost var s2 := S();
      TopUnmapped(s1, s2, r, TRAPFRAME, TRAMPOLINE);
      OnlyMemoryLeft(old(pts)[r].leaf, end);
      UvmFree(r, end);
      GoneLater(s1, s2, S(), r);
      GoneLater(old(S()), s1, S(), r);
    }

    /** The memory side of kfork(), for a parent with page table r and size sz: the
        child's page table, or 0 and not a page lost. */
    method ForkMemory(r: nat, sz: nat, trampoline: nat, trapframe: nat) returns (q: nat)
      requires Valid() && ProcessSpace(S(), r, sz) && PteValid(trampoline) && PteValid(trapframe)
      modifies this
      ensures Valid()
      ensures q != 0 ==> Spawned(old(S()), S(), q) && ProcessSpace(S(), q, sz) && ProcessSpace(S(), r, sz) && q != r
      ensures q != 0 ==> Top(pts[q].leaf) == TwoPages(trampoline, trapframe) && pts[r] == old(pts)[r]
      ensures q != 0 ==> View(S(), q) == View(old(S()), r) && View(S(), r) == View(old(S()), r)
      ensures q == 0 ==> NothingLost(old(S()), S()) && |old(free)| < 5 + 3 * PageRoundUp(sz)
    {
      var end := PageRoundUp(sz);
      RoundUpBounds(sz, sz);
      q := ProcPagetable(trampoline, trapframe);
      if q == 0 {
        return;
      }
      ghost var s1 := S();
      OpenedSame(old(S()), s1, q, r);
      TwoPagesTop(trampoline, trapframe);
      var ok := UvmCopy(r, q, end);
      if ok {
        SpawnedOpened(old(S()), s1, S(), q);
        SameTop(s1.pts[q].leaf, pts[q].leaf);
      } else {
        ghost var s2 := S();
        OpenedMore(old(S()), s1, s2, q);
        ProcFreePagetable(q, 0);
        OpenedGone(old(S()), s2, S(), q);
        return 0;
      }
    }
  }
}
