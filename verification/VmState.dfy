/** The state behind kernel/vm.c and kernel/kalloc.c, and what each elementary
    change to it keeps: physical memory, the free list threaded through the free
    pages, the address spaces, and the use of every page. */
module VmState {
  import opened PageTable

  /** `free`, `pts` and `owner` are history variables: the pages on the free list
      in order, the address space of each root table, the use of each page. */
  datatype Vm = Vm(mem: Mem, freelist: nat, free: seq<nat>, pts: map<nat, Shape>, owner: map<nat, Use>)

  function NextFree(free: seq<nat>, i: nat): nat {
    if i + 1 < |free| then free[i + 1] else 0
  }

  /** The next pointers in the free pages spell out the list. */
  ghost predicate ListOk(mem: Mem, freelist: nat, free: seq<nat>) {
    && freelist == (if free == [] then 0 else free[0])
    && (forall i :: 0 <= i < |free| ==> free[i] in mem)
    && (forall i :: 0 <= i < |free| ==> Entry(mem, free[i], 0) == NextFree(free, i))
  }

  ghost predicate FreeInv(free: seq<nat>, owner: map<nat, Use>) {
    && (forall i, j :: 0 <= i < j < |free| ==> free[i] != free[j])
    && (forall p :: p in free <==> p in owner && owner[p] == Free)
  }

  ghost predicate ReprAll(mem: Mem, pts: map<nat, Shape>) {
    forall r :: r in pts ==> Repr(mem, pts[r])
  }

  /** Every page is on the free list once, or held, or in exactly one place, and
      the tables in memory are what the address spaces say. */
  ghost predicate Sound(s: Vm) {
    && OwnInv(s.pts, s.owner)
    && FreeInv(s.free, s.owner)
    && ListOk(s.mem, s.freelist, s.free)
    && s.owner.Keys <= s.mem.Keys
    && ReprAll(s.mem, s.pts)
  }

  // ----- Ownership ------------------------------------------------------------------

  /** A held page goes to one empty place; every other place is as before. */
  lemma OwnFill(pts: map<nat, Shape>, pts': map<nat, Shape>, owner: map<nat, Use>, pl: Place, p: nat)
    requires OwnInv(pts, owner) && pts'.Keys == pts.Keys && pl.r in pts
    requires p in owner && owner[p] == Held
    requires forall q: Place :: q.r in pts ==> PlaceAt(pts', q) == if q == pl then p else PlaceAt(pts, q)
    requires forall r :: r in pts ==> pts'[r].root == r
    requires forall r, i :: r in pts && i in pts'[r].mid ==> pts'[r].mid[i] in owner
    requires forall r, g :: r in pts && g in pts'[r].low ==> pts'[r].low[g] in owner
    requires forall r, v :: r in pts && v in pts'[r].leaf && v < TRAPFRAME ==> PtePage(pts'[r].leaf[v]) in owner
    requires PlaceAt(pts, pl) == 0
    ensures OwnInv(pts', owner[p := In(pl)])
  {
    var owner' := owner[p := In(pl)];
    forall x | x in owner' && owner'[x].In? ensures owner'[x].place.r in pts' && PlaceAt(pts', owner'[x].place) == x {
    }
  }

  /** The page in one place becomes held; every other place is as before. */
  lemma OwnEmpty(pts: map<nat, Shape>, pts': map<nat, Shape>, owner: map<nat, Use>, pl: Place, p: nat)
    requires OwnInv(pts, owner) && pts'.Keys == pts.Keys && pl.r in pts && !pl.Root?
    requires p != 0 && PlaceAt(pts, pl) == p
    requires forall q: Place :: q.r in pts ==> PlaceAt(pts', q) == if q == pl then 0 else PlaceAt(pts, q)
    requires forall r :: r in pts ==> pts'[r].root == r
    requires forall r, i :: r in pts && i in pts'[r].mid ==> pts'[r].mid[i] in owner
    requires forall r, g :: r in pts && g in pts'[r].low ==> pts'[r].low[g] in owner
    requires forall r, v :: r in pts && v in pts'[r].leaf && v < TRAPFRAME ==> PtePage(pts'[r].leaf[v]) in owner
    ensures OwnInv(pts', owner[p := Held])
  {
    var owner' := owner[p := Held];
    forall x | x in owner' && owner'[x].In? ensures owner'[x].place.r in pts' && PlaceAt(pts', owner'[x].place) == x {
    }
    forall q: Place | q.r in pts' && PlaceAt(pts', q) != 0
      ensures PlaceAt(pts', q) in owner' && owner'[PlaceAt(pts', q)] == In(q)
    {
      assert PlaceAt(pts, q) == PlaceAt(pts', q);
    }
  }

  /** Use Free or Held, no place is concerned. */
  lemma OwnOutside(pts: map<nat, Shape>, owner: map<nat, Use>, p: nat, u: Use)
    requires OwnInv(pts, owner) && p in owner && !owner[p].In? && !u.In?
    ensures OwnInv(pts, owner[p := u])
  {
  }

  // ----- The free list --------------------------------------------------------------

  /** Writing pages that are not free keeps the list. */
  lemma ListFrame(mem: Mem, mem': Mem, freelist: nat, free: seq<nat>)
    requires ListOk(mem, freelist, free) && mem'.Keys == mem.Keys
    requires forall p :: p in free ==> mem'[p] == mem[p]
    ensures ListOk(mem', freelist, free)
  {
    forall i | 0 <= i < |free| ensures Entry(mem', free[i], 0) == Entry(mem, free[i], 0) {
      assert free[i] in free;
    }
  }

  /** The tables of address space r are where `owner` says. */
  ghost predicate TablesOf(sh: Shape, owner: map<nat, Use>, r: nat) {
    && sh.root in owner && owner[sh.root] == In(Root(r))
    && (forall i :: i in sh.mid ==> sh.mid[i] in owner && owner[sh.mid[i]] == In(Mid(r, i)))
    && (forall g :: g in sh.low ==> sh.low[g] in owner && owner[sh.low[g]] == In(Low(r, g)))
  }

  lemma TablesInUse(pts: map<nat, Shape>, owner: map<nat, Use>, r: nat)
    requires OwnInv(pts, owner) && r in pts
    ensures TablesOf(pts[r], owner, r)
  {
    assert PlaceAt(pts, Root(r)) == r;
    forall i | i in pts[r].mid ensures pts[r].mid[i] in owner && owner[pts[r].mid[i]] == In(Mid(r, i)) {
      assert PlaceAt(pts, Mid(r, i)) == pts[r].mid[i];
    }
    forall g | g in pts[r].low ensures pts[r].low[g] in owner && owner[pts[r].low[g]] == In(Low(r, g)) {
      assert PlaceAt(pts, Low(r, g)) == pts[r].low[g];
    }
  }

  /** A page that is not a table of address space r can be written. */
  ghost predicate NotTableOf(owner: map<nat, Use>, t: nat, r: nat) {
    t in owner && (owner[t].In? ==> owner[t].place.User? || owner[t].place.r != r)
  }

  lemma ReprOther(mem: Mem, sh: Shape, owner: map<nat, Use>, r: nat, t: nat, page: Page)
    requires Repr(mem, sh) && TablesOf(sh, owner, r) && NotTableOf(owner, t, r) && t in mem
    ensures Repr(mem[t := page], sh)
  {
    ReprFrame(mem, mem[t := page], sh);
  }

  /** Writing a page keeps every address space it is not a table of. */
  lemma ReprOthers(mem: Mem, pts: map<nat, Shape>, owner: map<nat, Use>, t: nat, page: Page)
    requires ReprAll(mem, pts) && OwnInv(pts, owner) && t in owner && t in mem
    ensures forall r :: r in pts && NotTableOf(owner, t, r) ==> Repr(mem[t := page], pts[r])
  {
    forall r | r in pts && NotTableOf(owner, t, r) ensures Repr(mem[t := page], pts[r]) {
      TablesInUse(pts, owner, r);
      ReprOther(mem, pts[r], owner, r, t, page);
    }
  }

  /** Overwriting one page that is not a table at all. */
  lemma NonTableWrite(mem: Mem, pts: map<nat, Shape>, owner: map<nat, Use>, p: nat, page: Page)
    requires ReprAll(mem, pts) && OwnInv(pts, owner) && p in owner && p in mem
    requires owner[p].In? ==> owner[p].place.User?
    ensures ReprAll(mem[p := page], pts)
  {
    ReprOthers(mem, pts, owner, p, page);
  }

  /** memset(p, b, PGSIZE) */
  function Filled(word: nat): Page {
    seq(512, _ => word)
  }

  /** kalloc() with a page to give. */
  function Take(s: Vm): Vm
    requires s.free != [] && s.free[0] in s.mem
  {
    var p := s.free[0];
    s.(mem := s.mem[p := Filled(0x0505_0505_0505_0505)], freelist := Entry(s.mem, p, 0), free := s.free[1..],
       owner := s.owner[p := Held])
  }

  lemma TakeSound(s: Vm)
    requires Sound(s) && s.free != []
    ensures s.free[0] in s.mem && s.free[0] in s.owner && s.free[0] != 0 && Sound(Take(s))
  {
    var p := s.free[0];
    assert p in s.free;
    OwnOutside(s.pts, s.owner, p, Held);
    NonTableWrite(s.mem, s.pts, s.owner, p, Filled(0x0505_0505_0505_0505));
    var s' := Take(s);
    assert FreeInv(s'.free, s'.owner) by {
      forall q ensures q in s'.free <==> q in s'.owner && s'.owner[q] == Free {
        if q in s'.free {
          var k :| 0 <= k < |s'.free| && s'.free[k] == q;
          assert s.free[k + 1] == q && q in s.free;
        }
        if q in s.free && q != p {
          var k :| 0 <= k < |s.free| && s.free[k] == q;
          assert s'.free[k - 1] == q;
        }
      }
    }
    TakeList(s.mem, s'.mem, s.freelist, s.free);
  }

  lemma TakeList(mem: Mem, mem': Mem, freelist: nat, free: seq<nat>)
    requires ListOk(mem, freelist, free) && free != [] && mem'.Keys == mem.Keys
    requires forall i, j :: 0 <= i < j < |free| ==> free[i] != free[j]
    requires forall p :: p in mem && p != free[0] ==> mem'[p] == mem[p]
    ensures ListOk(mem', Entry(mem, free[0], 0), free[1..])
  {
    var rest := free[1..];
    forall i | 0 <= i < |rest|
      ensures rest[i] in mem' && Entry(mem', rest[i], 0) == NextFree(rest, i)
    {
      assert rest[i] == free[i + 1] && free[i + 1] != free[0];
      assert NextFree(rest, i) == NextFree(free, i + 1);
    }
    assert Entry(mem, free[0], 0) == NextFree(free, 0);
  }

  /** kfree() of a page nothing else uses. */
  function Give(s: Vm, p: nat): Vm
    requires p in s.mem
  {
    s.(mem := s.mem[p := Filled(0x0101_0101_0101_0101)[0 := s.freelist]], freelist := p, free := [p] + s.free,
       owner := s.owner[p := Free])
  }

  lemma GiveSound(s: Vm, p: nat)
    requires Sound(s) && p in s.owner && s.owner[p] == Held
    ensures p in s.mem && Sound(Give(s, p))
  {
    var s' := Give(s, p);
    OwnOutside(s.pts, s.owner, p, Free);
    NonTableWrite(s.mem, s.pts, s.owner, p, s'.mem[p]);
    forall i | 0 <= i < |s'.free|
      ensures s'.free[i] in s'.mem && Entry(s'.mem, s'.free[i], 0) == NextFree(s'.free, i)
    {
      if i > 0 {
        assert s'.free[i] == s.free[i - 1] && s.free[i - 1] in s.free;
        assert NextFree(s'.free, i) == NextFree(s.free, i - 1);
      }
    }
  }

  // ----- Changing tables --------------------------------------------------------------

  /** The free list does not mind how the pages in use are used. */
  lemma FreeFrame(free: seq<nat>, owner: map<nat, Use>, p: nat, u: Use)
    requires FreeInv(free, owner) && p in owner && owner[p] != Free && u != Free
    ensures FreeInv(free, owner[p := u])
  {
  }

  /** Nor the writing of a page that is not free. */
  lemma ListUsed(mem: Mem, freelist: nat, free: seq<nat>, owner: map<nat, Use>, t: nat, page: Page)
    requires ListOk(mem, freelist, free) && FreeInv(free, owner) && t in owner && owner[t] != Free && t in mem
    ensures ListOk(mem[t := page], freelist, free)
  {
    ListFrame(mem, mem[t := page], freelist, free);
  }

  /** One table t of address space r is rewritten so that it represents sh'. */
  lemma TableWrite(s: Vm, r: nat, t: nat, page: Page, sh': Shape)
    requires Sound(s) && r in s.pts && t in s.owner && s.owner[t].In? && s.owner[t].place.r == r
    requires Repr(s.mem[t := page], sh')
    ensures ReprAll(s.mem[t := page], s.pts[r := sh'])
    ensures ListOk(s.mem[t := page], s.freelist, s.free)
  {
    ReprOthers(s.mem, s.pts, s.owner, t, page);
    ListUsed(s.mem, s.freelist, s.free, s.owner, t, page);
  }

  // ----- New tables --------------------------------------------------------------------

  lemma OwnMid(pts: map<nat, Shape>, owner: map<nat, Use>, r: nat, i: nat, p: nat)
    requires OwnInv(pts, owner) && r in pts && i !in pts[r].mid && p in owner && owner[p] == Held
    ensures OwnInv(pts[r := pts[r].(mid := pts[r].mid[i := p])], owner[p := In(Mid(r, i))])
  {
    OwnFill(pts, pts[r := pts[r].(mid := pts[r].mid[i := p])], owner, Mid(r, i), p);
  }

  lemma OwnLow(pts: map<nat, Shape>, owner: map<nat, Use>, r: nat, g: nat, p: nat)
    requires OwnInv(pts, owner) && r in pts && g !in pts[r].low && p in owner && owner[p] == Held
    ensures OwnInv(pts[r := pts[r].(low := pts[r].low[g := p])], owner[p := In(Low(r, g))])
  {
    OwnFill(pts, pts[r := pts[r].(low := pts[r].low[g := p])], owner, Low(r, g), p);
  }

  function LinkMid(s: Vm, r: nat, i: nat, p: nat): Vm
    requires r in s.pts && r in s.mem && i < 512
  {
    s.(mem := Poke(s.mem, r, i, TablePte(p)),
       pts := s.pts[r := s.pts[r].(mid := s.pts[r].mid[i := p])],
       owner := s.owner[p := In(Mid(r, i))])
  }

  lemma LinkMidRepr(s: Vm, r: nat, i: nat, p: nat)
    requires Sound(s) && r in s.pts && i < 512 && i !in s.pts[r].mid
    requires p in s.owner && s.owner[p] == Held && s.mem[p] == ZeroPage()
    ensures r in s.mem
    ensures ReprAll(LinkMid(s, r, i, p).mem, LinkMid(s, r, i, p).pts)
    ensures ListOk(LinkMid(s, r, i, p).mem, s.freelist, s.free)
  {
    TablesInUse(s.pts, s.owner, r);
    OwnedDistinct(s.pts, s.owner, r);
    AddMid(s.mem, s.pts[r], i, p);
    TableWrite(s, r, r, s.mem[r][i := TablePte(p)], s.pts[r].(mid := s.pts[r].mid[i := p]));
  }

  lemma LinkMidSound(s: Vm, r: nat, i: nat, p: nat)
    requires Sound(s) && r in s.pts && i < 512 && i !in s.pts[r].mid
    requires p in s.owner && s.owner[p] == Held && s.mem[p] == ZeroPage()
    ensures r in s.mem && Sound(LinkMid(s, r, i, p))
  {
    LinkMidRepr(s, r, i, p);
    OwnMid(s.pts, s.owner, r, i, p);
    FreeFrame(s.free, s.owner, p, In(Mid(r, i)));
  }

  function LinkLow(s: Vm, r: nat, g: nat, p: nat): Vm
    requires r in s.pts && g / 512 in s.pts[r].mid && s.pts[r].mid[g / 512] in s.mem
  {
    s.(mem := Poke(s.mem, s.pts[r].mid[g / 512], g % 512, TablePte(p)),
       pts := s.pts[r := s.pts[r].(low := s.pts[r].low[g := p])],
       owner := s.owner[p := In(Low(r, g))])
  }

  lemma LinkLowRepr(s: Vm, r: nat, g: nat, p: nat)
    requires Sound(s) && r in s.pts && g / 512 in s.pts[r].mid && g !in s.pts[r].low
    requires p in s.owner && s.owner[p] == Held && s.mem[p] == ZeroPage()
    ensures s.pts[r].mid[g / 512] in s.mem
    ensures ReprAll(LinkLow(s, r, g, p).mem, LinkLow(s, r, g, p).pts)
    ensures ListOk(LinkLow(s, r, g, p).mem, s.freelist, s.free)
  {
    TablesInUse(s.pts, s.owner, r);
    OwnedDistinct(s.pts, s.owner, r);
    AddLow(s.mem, s.pts[r], g, p);
    var t := s.pts[r].mid[g / 512];
    TableWrite(s, r, t, s.mem[t][g % 512 := TablePte(p)], s.pts[r].(low := s.pts[r].low[g := p]));
  }

  lemma LinkLowSound(s: Vm, r: nat, g: nat, p: nat)
    requires Sound(s) && r in s.pts && g / 512 in s.pts[r].mid && g !in s.pts[r].low
    requires p in s.owner && s.owner[p] == Held && s.mem[p] == ZeroPage()
    ensures s.pts[r].mid[g / 512] in s.mem && Sound(LinkLow(s, r, g, p))
  {
    LinkLowRepr(s, r, g, p);
    OwnLow(s.pts, s.owner, r, g, p);
    FreeFrame(s.free, s.owner, p, In(Low(r, g)));
  }

  // ----- Mappings ------------------------------------------------------------------------

  function WithLeaf(pts: map<nat, Shape>, r: nat, v: nat, w: nat): map<nat, Shape>
    requires r in pts
  {
    pts[r := pts[r].(leaf := PutLeaf(pts[r].leaf, v, w))]
  }

  /** Store word w as the entry of page v, with page uses as given. */
  function PutPte(s: Vm, r: nat, v: nat, w: nat, owner': map<nat, Use>): Vm
    requires r in s.pts && v / 512 in s.pts[r].low && s.pts[r].low[v / 512] in s.mem
  {
    s.(mem := Poke(s.mem, s.pts[r].low[v / 512], v % 512, w), pts := WithLeaf(s.pts, r, v, w), owner := owner')
  }

  lemma PutPteRepr(s: Vm, r: nat, v: nat, w: nat)
    requires Sound(s) && r in s.pts && v / 512 in s.pts[r].low
    ensures s.pts[r].low[v / 512] in s.mem
    ensures ReprAll(PutPte(s, r, v, w, s.owner).mem, WithLeaf(s.pts, r, v, w))
    ensures ListOk(PutPte(s, r, v, w, s.owner).mem, s.freelist, s.free)
  {
    TablesInUse(s.pts, s.owner, r);
    OwnedDistinct(s.pts, s.owner, r);
    SetLeaf(s.mem, s.pts[r], v, w);
    var t := s.pts[r].low[v / 512];
    TableWrite(s, r, t, s.mem[t][v % 512 := w], s.pts[r].(leaf := PutLeaf(s.pts[r].leaf, v, w)));
  }

  lemma OwnMap(pts: map<nat, Shape>, owner: map<nat, Use>, r: nat, v: nat, w: nat)
    requires OwnInv(pts, owner) && r in pts && v !in pts[r].leaf && v < TRAPFRAME && PteValid(w)
    requires PtePage(w) in owner && owner[PtePage(w)] == Held
    ensures OwnInv(WithLeaf(pts, r, v, w), owner[PtePage(w) := In(User(r, v))])
  {
    OwnFill(pts, WithLeaf(pts, r, v, w), owner, User(r, v), PtePage(w));
  }

  /** Mapping a held page as user memory hands it to the address space. */
  lemma MapUserSound(s: Vm, r: nat, v: nat, p: nat, flags: nat)
    requires Sound(s) && r in s.pts && v / 512 in s.pts[r].low && v !in s.pts[r].leaf && v < TRAPFRAME
    requires p in s.owner && s.owner[p] == Held && flags < 0x400 && PteValid(flags)
    ensures s.pts[r].low[v / 512] in s.mem
    ensures Sound(PutPte(s, r, v, MakePte(p, flags), s.owner[p := In(User(r, v))]))
  {
    PteRoundTrip(p, flags);
    PutPteRepr(s, r, v, MakePte(p, flags));
    FreeFrame(s.free, s.owner, p, In(User(r, v)));
    OwnMap(s.pts, s.owner, r, v, MakePte(p, flags));
  }

  lemma OwnSpecial(pts: map<nat, Shape>, owner: map<nat, Use>, r: nat, v: nat, w: nat)
    requires OwnInv(pts, owner) && r in pts && v >= TRAPFRAME
    ensures OwnInv(WithLeaf(pts, r, v, w), owner)
  {
    var pts' := WithLeaf(pts, r, v, w);
    forall q: Place | q.r in pts ensures PlaceAt(pts', q) == PlaceAt(pts, q) { }
  }

  /** The trampoline and trapframe mappings own nothing. */
  lemma SpecialSound(s: Vm, r: nat, v: nat, w: nat)
    requires Sound(s) && r in s.pts && v / 512 in s.pts[r].low && v >= TRAPFRAME
    ensures s.pts[r].low[v / 512] in s.mem
    ensures Sound(PutPte(s, r, v, w, s.owner))
  {
    PutPteRepr(s, r, v, w);
    OwnSpecial(s.pts, s.owner, r, v, w);
  }

  lemma OwnUnmap(pts: map<nat, Shape>, owner: map<nat, Use>, r: nat, v: nat)
    requires OwnInv(pts, owner) && r in pts && v in pts[r].leaf && v < TRAPFRAME
    ensures PtePage(pts[r].leaf[v]) in owner && owner[PtePage(pts[r].leaf[v])] == In(User(r, v))
    ensures OwnInv(WithLeaf(pts, r, v, 0), owner[PtePage(pts[r].leaf[v]) := Held])
  {
    assert PlaceAt(pts, User(r, v)) == PtePage(pts[r].leaf[v]);
    OwnEmpty(pts, WithLeaf(pts, r, v, 0), owner, User(r, v), PtePage(pts[r].leaf[v]));
  }

  /** Unmapping a user page gets the page back. */
  lemma UnmapUserSound(s: Vm, r: nat, v: nat)
    requires Sound(s) && r in s.pts && v in s.pts[r].leaf && v / 512 in s.pts[r].low && v < TRAPFRAME
    ensures s.pts[r].low[v / 512] in s.mem
    ensures PtePage(s.pts[r].leaf[v]) in s.owner && s.owner[PtePage(s.pts[r].leaf[v])] == In(User(r, v))
    ensures Sound(PutPte(s, r, v, 0, s.owner[PtePage(s.pts[r].leaf[v]) := Held]))
  {
    PutPteRepr(s, r, v, 0);
    OwnUnmap(s.pts, s.owner, r, v);
    FreeFrame(s.free, s.owner, PtePage(s.pts[r].leaf[v]), Held);
  }
}
