/** Creating an address space and taking it apart again: the page-table pages as
    a tree of nodes, and what freeing a subtree does. */
module VmTeardown {
  import opened PageTable
  import opened VmState
  import opened VmEffects

  /** A page in use, for anything, by address space r. */
  ghost predicate OfSpace(u: Use, r: nat) {
    u.In? && u.place.r == r
  }

  // ----- Detaching --------------------------------------------------------------------

  /** Address space r is given up: its pages are merely held. */
  ghost function Detach(s: Vm, r: nat): Vm
    requires r in s.pts
  {
    s.(pts := s.pts - {r}, owner := map p | p in s.owner :: if OfSpace(s.owner[p], r) then Held else s.owner[p])
  }

  lemma DetachOwn(pts: map<nat, Shape>, owner: map<nat, Use>, owner': map<nat, Use>, r: nat)
    requires OwnInv(pts, owner) && r in pts
    requires owner'.Keys == owner.Keys
    requires forall p :: p in owner ==> owner'[p] == if OfSpace(owner[p], r) then Held else owner[p]
    ensures OwnInv(pts - {r}, owner')
  {
    var pts' := pts - {r};
    forall pl: Place | pl.r in pts' ensures PlaceAt(pts', pl) == PlaceAt(pts, pl) { }
  }

  lemma DetachSound(s: Vm, r: nat)
    requires Sound(s) && r in s.pts
    ensures Sound(Detach(s, r))
  {
    DetachOwn(s.pts, s.owner, Detach(s, r).owner, r);
  }

  // ----- Nodes --------------------------------------------------------------------------

  predicate HasNode(sh: Shape, level: nat, idx: nat) {
    if level == 2 then idx == 0 else if level == 1 then idx in sh.mid else level == 0 && idx in sh.low
  }

  /** The page of a node: of the root, of level-1 table idx, of level-0 table idx. */
  function Node(sh: Shape, level: nat, idx: nat): nat
    requires HasNode(sh, level, idx)
  {
    if level == 2 then sh.root else if level == 1 then sh.mid[idx] else sh.low[idx]
  }

  function Kid(idx: nat, k: nat): nat {
    512 * idx + k
  }

  /** The tables of a subtree hold links to the tables below and nothing else. */
  ghost predicate Intact(mem: Mem, sh: Shape, level: nat, idx: nat)
    decreases level
  {
    HasNode(sh, level, idx) && forall k: nat :: k < 512 ==> IntactKid(mem, sh, level, idx, k, Kid(idx, k))
  }

  ghost predicate IntactKid(mem: Mem, sh: Shape, level: nat, idx: nat, k: nat, kid: nat)
    requires HasNode(sh, level, idx) && k < 512
    decreases level, 0
  {
    if level > 0 && HasNode(sh, level - 1, kid) then
      Entry(mem, Node(sh, level, idx), k) == TablePte(Node(sh, level - 1, kid)) && Intact(mem, sh, level - 1, kid)
    else
      !PteValid(Entry(mem, Node(sh, level, idx), k))
  }

  /** The index, among the nodes of a level, of the node a table lies under. */
  function Above(pl: Place, level: nat): nat {
    match pl
    case Root(_) => 0
    case Mid(_, i) => if level <= 1 then i else i / 512
    case Low(_, g) => if level == 0 then g else if level == 1 then g / 512 else g / 512 / 512
    case User(_, v) => v
  }

  function Depth(pl: Place): nat {
    match pl
    case Root(_) => 2
    case Mid(_, _) => 1
    case Low(_, _) => 0
    case User(_, _) => 3
  }

  /** A table of address space r in the subtree of a node. */
  ghost predicate Under(u: Use, r: nat, level: nat, idx: nat) {
    u.In? && u.place.r == r && Depth(u.place) <= level && Above(u.place, level) == idx
  }

  /** A table below the nodes lo to hi of the level. */
  ghost predicate UnderAny(u: Use, r: nat, level: int, lo: nat, hi: nat) {
    u.In? && u.place.r == r && level >= 0 && Depth(u.place) <= level && lo <= Above(u.place, level) < hi
  }

  lemma KidAbove(pl: Place, level: nat)
    requires 1 <= level <= 2 && Depth(pl) <= level - 1
    ensures Above(pl, level) == Above(pl, level - 1) / 512
  {
  }

  function NodePlace(r: nat, level: nat, idx: nat): Place {
    if level == 2 then Root(r) else if level == 1 then Mid(r, idx) else Low(r, idx)
  }

  /** `owner` gives the use of the tables while r was an address space. */
  ghost predicate TablesWere(sh: Shape, owner: map<nat, Use>, r: nat) {
    && (forall level, idx :: 0 <= level <= 2 && 0 <= idx && HasNode(sh, level, idx) ==>
          Node(sh, level, idx) in owner && owner[Node(sh, level, idx)] == In(NodePlace(r, level, idx)))
    && (forall p :: p in owner && OfSpace(owner[p], r) && Depth(owner[p].place) <= 2 ==>
          HasNode(sh, Depth(owner[p].place), Above(owner[p].place, Depth(owner[p].place))))
    && (forall p, q :: p in owner && q in owner && owner[p].In? && owner[q] == owner[p] ==> p == q)
  }

  lemma TablesAre(pts: map<nat, Shape>, owner: map<nat, Use>, r: nat)
    requires OwnInv(pts, owner) && r in pts
    ensures TablesWere(pts[r], owner, r)
  {
    TablesInUse(pts, owner, r);
    forall p | p in owner && OfSpace(owner[p], r) && Depth(owner[p].place) <= 2
      ensures HasNode(pts[r], Depth(owner[p].place), Above(owner[p].place, Depth(owner[p].place)))
    {
      assert PlaceAt(pts, owner[p].place) == p;
    }
    forall p, q | p in owner && q in owner && owner[p].In? && owner[q] == owner[p] ensures p == q {
      assert PlaceAt(pts, owner[p].place) == p;
    }
  }

  /** A subtree does not mind changes elsewhere. */
  lemma {:induction false} IntactFrame(mem: Mem, mem': Mem, sh: Shape, owner: map<nat, Use>, r: nat, level: nat,
                                       idx: nat)
    requires Intact(mem, sh, level, idx) && TablesWere(sh, owner, r) && level <= 2
    requires mem'.Keys == mem.Keys
    requires forall p :: p in owner && p in mem && Under(owner[p], r, level, idx) ==> mem'[p] == mem[p]
    ensures Intact(mem', sh, level, idx)
    decreases level
  {
    assert Under(owner[Node(sh, level, idx)], r, level, idx);
    forall k: nat | k < 512 ensures IntactKid(mem', sh, level, idx, k, Kid(idx, k)) {
      var kid := Kid(idx, k);
      assert IntactKid(mem, sh, level, idx, k, kid);
      if level > 0 && HasNode(sh, level - 1, kid) {
        forall p | p in owner && p in mem && Under(owner[p], r, level - 1, kid) ensures mem'[p] == mem[p] {
          KidAbove(owner[p].place, level);
        }
        IntactFrame(mem, mem', sh, owner, r, level - 1, kid);
      }
    }
  }

  /** The tables under the nodes lo to hi of a level have been freed, and nothing
      else has changed except perhaps the contents of page x. */
  ghost predicate FreedTables(s0: Vm, s1: Vm, owner: map<nat, Use>, r: nat, level: int, lo: nat, hi: nat, x: nat) {
    && s1.pts == s0.pts && s1.mem.Keys == s0.mem.Keys && s1.owner.Keys == s0.owner.Keys == owner.Keys
    && owner.Keys <= s0.mem.Keys
    && (forall p :: p in owner ==> s1.owner[p] == if UnderAny(owner[p], r, level, lo, hi) then Free else s0.owner[p])
    && (forall p :: p in owner && p != x && !UnderAny(owner[p], r, level, lo, hi) ==> s1.mem[p] == s0.mem[p])
  }

  lemma FreedNone(s: Vm, owner: map<nat, Use>, r: nat, level: int, lo: nat, x: nat)
    requires s.owner.Keys == owner.Keys <= s.mem.Keys
    ensures FreedTables(s, s, owner, r, level, lo, lo, x)
  {
  }

  lemma FreedMore(s0: Vm, s1: Vm, s2: Vm, owner: map<nat, Use>, r: nat, level: int, lo: nat, c: nat, hi: nat, x: nat)
    requires FreedTables(s0, s1, owner, r, level, lo, c, x) && FreedTables(s1, s2, owner, r, level, c, hi, 0)
    requires lo <= c <= hi && 0 !in owner
    ensures FreedTables(s0, s2, owner, r, level, lo, hi, x)
  {
  }

  /** No table of the level at node c. */
  lemma FreedSkip(s0: Vm, s1: Vm, owner: map<nat, Use>, r: nat, level: int, lo: nat, c: nat, hi: nat, x: nat)
    requires FreedTables(s0, s1, owner, r, level, lo, c, x) && lo <= c && hi == c + 1
    requires forall p :: p in owner ==> !UnderAny(owner[p], r, level, c, hi)
    ensures FreedTables(s0, s1, owner, r, level, lo, hi, x)
  {
    assert forall p :: p in owner ==> (UnderAny(owner[p], r, level, lo, hi) <==> UnderAny(owner[p], r, level, lo, c));
  }

  lemma NoKid(sh: Shape, owner: map<nat, Use>, r: nat, level: int, c: nat, hi: nat)
    requires TablesWere(sh, owner, r) && WellShaped(sh) && level <= 1 && hi == c + 1
    requires level >= 0 ==> !HasNode(sh, level, c)
    ensures forall p :: p in owner ==> !UnderAny(owner[p], r, level, c, hi)
  {
    forall p | p in owner ensures !UnderAny(owner[p], r, level, c, hi) {
      if OfSpace(owner[p], r) && Depth(owner[p].place) <= 2 {
        assert HasNode(sh, Depth(owner[p].place), Above(owner[p].place, Depth(owner[p].place)));
      }
    }
  }

  lemma FreedStore(s0: Vm, s1: Vm, owner: map<nat, Use>, r: nat, level: int, lo: nat, hi: nat, x: nat, page: Page)
    requires FreedTables(s0, s1, owner, r, level, lo, hi, x) && x in s1.mem
    ensures FreedTables(s0, s1.(mem := s1.mem[x := page]), owner, r, level, lo, hi, x)
  {
  }

  /** The subtree is the node and the subtrees below it. */
  lemma UnderSplit(u: Use, r: nat, level: nat, idx: nat, next: nat, lo: nat, hi: nat)
    requires level <= 2 && next == idx + 1 && lo == Kid(idx, 0) && hi == lo + 512
    ensures UnderAny(u, r, level, idx, next) <==>
            (UnderAny(u, r, level - 1, lo, hi) || (u == In(NodePlace(r, level, idx)) && (level == 2 ==> idx == 0)))
  {
    if u.In? && level >= 1 && Depth(u.place) <= level - 1 { KidAbove(u.place, level); }
  }

  lemma FreedNode(s0: Vm, s1: Vm, owner: map<nat, Use>, r: nat, level: nat, idx: nat, next: nat, lo: nat, hi: nat,
                  table: nat, sub: int)
    requires FreedTables(s0, s1, owner, r, sub, lo, hi, table) && table in owner
    requires level <= 2 && sub == level - 1 && next == idx + 1 && lo == Kid(idx, 0) && hi == lo + 512
    requires (level == 2 ==> idx == 0)
    requires forall p :: p in owner ==> (owner[p] == In(NodePlace(r, level, idx)) <==> p == table)
    ensures table in s1.mem && FreedTables(s0, Give(s1, table), owner, r, level, idx, next, 0)
  {
    var s2 := Give(s1, table);
    forall p | p in owner
      ensures s2.owner[p] == if UnderAny(owner[p], r, level, idx, next) then Free else s0.owner[p]
      ensures p != 0 && !UnderAny(owner[p], r, level, idx, next) ==> s2.mem[p] == s0.mem[p]
    {
      UnderSplit(owner[p], r, level, idx, next, lo, hi);
    }
  }

  /** What taking apart r leaves to do: its tables, all held, as they were. */
  ghost predicate Detached(s: Vm, sh: Shape, owner: map<nat, Use>, r: nat) {
    TablesWere(sh, owner, r) && WellShaped(sh) && s.owner.Keys == owner.Keys <= s.mem.Keys && 0 !in owner
  }

  ghost predicate HeldUnder(s: Vm, owner: map<nat, Use>, r: nat, level: nat, idx: nat) {
    forall p :: p in owner && p in s.owner && Under(owner[p], r, level, idx) ==> s.owner[p] == Held
  }

  /** The next subtree is still as it was at the start of the loop. */
  lemma NextKid(s0: Vm, s1: Vm, sh: Shape, owner: map<nat, Use>, r: nat, level: nat, idx: nat, lo: nat, c: nat,
                k: nat, table: nat, sub: nat)
    requires Detached(s0, sh, owner, r) && 1 <= level <= 2 && HasNode(sh, level, idx) && table == Node(sh, level, idx)
    requires Intact(s0.mem, sh, level, idx) && HeldUnder(s0, owner, r, level, idx)
    requires FreedTables(s0, s1, owner, r, sub, lo, c, table)
    requires k < 512 && c == Kid(idx, k) && sub == level - 1 && HasNode(sh, sub, c)
    ensures Intact(s1.mem, sh, sub, c) && HeldUnder(s1, owner, r, sub, c)
    ensures Entry(s0.mem, table, k) == TablePte(Node(sh, sub, c))
  {
    assert IntactKid(s0.mem, sh, level, idx, k, c);
    assert Node(sh, level, idx) in owner && owner[table] == In(NodePlace(r, level, idx));
    forall p | p in owner && Under(owner[p], r, sub, c)
      ensures p != table && !UnderAny(owner[p], r, sub, lo, c) && Under(owner[p], r, level, idx)
    {
      KidAbove(owner[p].place, level);
    }
    IntactFrame(s0.mem, s1.mem, sh, owner, r, sub, c);
  }

  /** An entry is a link to a lower table or empty. */
  lemma EntryKinds(mem: Mem, sh: Shape, level: nat, sub: int, idx: nat, k: nat, c: nat)
    requires HasNode(sh, level, idx) && Intact(mem, sh, level, idx) && k < 512 && c == Kid(idx, k) && sub == level - 1
    ensures
      var pte := Entry(mem, Node(sh, level, idx), k);
      && (PteValid(pte) <==> sub >= 0 && HasNode(sh, sub, c))
      && (PteValid(pte) ==> PteTable(pte) && PtePage(pte) == Node(sh, sub, c))
  {
    assert IntactKid(mem, sh, level, idx, k, c);
    if level > 0 && HasNode(sh, sub, c) { TablePteFacts(Node(sh, sub, c)); }
  }

  /** Freeing tables lower down leaves the table itself alone. */
  lemma TableKept(s0: Vm, s1: Vm, owner: map<nat, Use>, r: nat, sub: nat, lo: nat, hi: nat, table: nat, level: nat,
                  idx: nat)
    requires FreedTables(s0, s1, owner, r, sub, lo, hi, 0) && 0 !in owner && level <= 2 && sub < level
    requires table in owner && owner[table] == In(NodePlace(r, level, idx))
    ensures table in s1.mem && table in s0.mem && s1.mem[table] == s0.mem[table] && s1.owner[table] == s0.owner[table]
  {
  }

  // ----- The whole address space ---------------------------------------------------------

  /** Address space r is gone and every page it used, for tables or for memory,
      is free; nothing else has changed. */
  ghost predicate Gone(s0: Vm, s1: Vm, r: nat) {
    && s1.pts == s0.pts - {r} && s1.owner.Keys == s0.owner.Keys
    && s0.owner.Keys <= s0.mem.Keys && s1.owner.Keys <= s1.mem.Keys
    && (forall p :: p in s0.owner ==> s1.owner[p] == if OfSpace(s0.owner[p], r) then Free else s0.owner[p])
    && (forall p :: p in s0.owner && IsData(s0.owner[p]) && !OfSpace(s0.owner[p], r) ==> s1.mem[p] == s0.mem[p])
  }

  ghost predicate AllBelow(leaf: map<nat, nat>, end: nat) {
    forall u :: u in leaf ==> u < end
  }

  lemma WithoutAll(leaf: map<nat, nat>, end: nat)
    requires AllBelow(leaf, end)
    ensures Without(leaf, 0, end) == map[]
  {
  }

  /** What is left of the mappings once the two pages at the top are unmapped. */
  lemma OnlyMemoryLeft(leaf: map<nat, nat>, end: nat)
    requires Vacant(leaf, end, TRAPFRAME) && TopPages(leaf)
    ensures AllBelow(Without(Without(leaf, TRAMPOLINE, MAXVPN), TRAPFRAME, TRAMPOLINE), end)
  {
  }

  /** The mappings of a new process. */
  function OnePage(trampoline: nat): map<nat, nat> {
    map[][TRAMPOLINE := trampoline]
  }

  function TwoPages(trampoline: nat, trapframe: nat): map<nat, nat> {
    OnePage(trampoline)[TRAPFRAME := trapframe]
  }

  lemma OnePageGone(a: nat)
    ensures TRAPFRAME !in OnePage(a) && Without(OnePage(a), TRAMPOLINE, MAXVPN) == map[]
  {
  }

  lemma {:induction false} IntactBelow(mem: Mem, sh: Shape, level: nat, idx: nat)
    requires Repr(mem, sh) && sh.leaf == map[] && level <= 2 && HasNode(sh, level, idx)
    ensures Intact(mem, sh, level, idx)
    decreases level
  {
    forall k: nat | k < 512 ensures IntactKid(mem, sh, level, idx, k, Kid(idx, k)) {
      var kid := Kid(idx, k);
      if level == 2 {
        assert RootEntry(mem, sh, k) == Entry(mem, sh.root, k);
      } else if level == 1 {
        assert kid / 512 == idx && kid % 512 == k;
        assert MidEntry(mem, sh, kid) == Entry(mem, sh.mid[idx], k);
      } else {
        assert kid / 512 == idx && kid % 512 == k;
        assert LowEntry(mem, sh, kid) == Entry(mem, sh.low[idx], k);
      }
      if level > 0 && HasNode(sh, level - 1, kid) { IntactBelow(mem, sh, level - 1, kid); }
    }
  }

  /** With no mappings left, all that remains of an address space is its tables. */
  lemma AllUnder(s: Vm, r: nat)
    requires Sound(s) && r in s.pts && s.pts[r].leaf == map[]
    ensures forall p :: p in s.owner && OfSpace(s.owner[p], r) ==> UnderAny(s.owner[p], r, 2, 0, 1)
  {
    var sh := s.pts[r];
    assert Repr(s.mem, sh);
    forall p | p in s.owner && OfSpace(s.owner[p], r) ensures UnderAny(s.owner[p], r, 2, 0, 1) {
      assert PlaceAt(s.pts, s.owner[p].place) == p;
      OneRoot(sh, s.owner[p].place, r);
    }
  }

  lemma OneRoot(sh: Shape, pl: Place, r: nat)
    requires WellShaped(sh) && pl.r == r && !pl.User?
    requires pl.Mid? ==> pl.i in sh.mid
    requires pl.Low? ==> pl.g in sh.low
    ensures Above(pl, 2) == 0 && Depth(pl) <= 2
  {
  }

  lemma UsersInRange(s: Vm, r: nat, end: nat)
    requires Sound(s) && r in s.pts && AllBelow(s.pts[r].leaf, end)
    ensures forall p :: p in s.owner && OfSpace(s.owner[p], r) && IsUser(s.owner[p]) ==> InRange(s.owner[p], r, 0, end)
  {
    forall p | p in s.owner && OfSpace(s.owner[p], r) && IsUser(s.owner[p]) ensures InRange(s.owner[p], r, 0, end) {
      assert PlaceAt(s.pts, s.owner[p].place) == p;
    }
  }

  lemma DetachedReady(s: Vm, r: nat)
    requires Sound(s) && r in s.pts && s.pts[r].leaf == map[]
    ensures Detached(Detach(s, r), s.pts[r], s.owner, r)
    ensures Intact(s.mem, s.pts[r], 2, 0) && HeldUnder(Detach(s, r), s.owner, r, 2, 0)
  {
    TablesAre(s.pts, s.owner, r);
    assert Repr(s.mem, s.pts[r]);
    IntactBelow(s.mem, s.pts[r], 2, 0);
  }

  /** Unmapping the memory and freeing the tables adds up to giving up the whole
      address space. */
  lemma FreedAll(s0: Vm, s1: Vm, s3: Vm, r: nat, end: nat)
    requires r in s0.pts && Unmapped(s0, s1, r, 0, end) && FreedTables(Detach(s1, r), s3, s1.owner, r, 2, 0, 1, 0)
    requires forall p :: p in s1.owner && OfSpace(s1.owner[p], r) ==> UnderAny(s1.owner[p], r, 2, 0, 1)
    requires forall p :: p in s0.owner && OfSpace(s0.owner[p], r) && IsUser(s0.owner[p]) ==>
              InRange(s0.owner[p], r, 0, end)
    requires 0 !in s0.owner
    ensures Gone(s0, s3, r)
  {
  }

  /** What was unmapped before makes no difference. */
  lemma GoneLater(s0: Vm, s1: Vm, s2: Vm, r: nat)
    requires Changed(s0, s1, r, 0, 0) && s1.owner == s0.owner && Gone(s1, s2, r)
    ensures Gone(s0, s2, r)
  {
    assert s2.pts == s0.pts - {r};
  }

  /** Unmapping the two pages at the top frees nothing. */
  lemma TopUnmapped(s0: Vm, s1: Vm, r: nat, a: nat, b: nat)
    requires Sound(s0) && Unmapped(s0, s1, r, a, b) && TRAPFRAME <= a
    ensures Changed(s0, s1, r, 0, 0) && s1.owner == s0.owner
  {
    forall p | p in s0.owner ensures !InRange(s0.owner[p], r, a, b) {
      if s0.owner[p].In? { assert PlaceAt(s0.pts, s0.owner[p].place) == p; }
    }
    TopData(s0, s1, r, a, b);
  }

  lemma TopData(s0: Vm, s1: Vm, r: nat, a: nat, b: nat)
    requires Unmapped(s0, s1, r, a, b) && forall p :: p in s0.owner ==> !InRange(s0.owner[p], r, a, b)
    ensures Changed(s0, s1, r, 0, 0) && s1.owner == s0.owner
  {
  }

  // ----- A new address space -----------------------------------------------------------------

  /** A zeroed page the kernel holds becomes the root table of an empty address space. */
  function Rooted(s: Vm, p: nat): Vm {
    s.(pts := s.pts[p := Shape(p, map[], map[], map[])], owner := s.owner[p := In(Root(p))])
  }

  lemma RootedOwn(pts: map<nat, Shape>, owner: map<nat, Use>, p: nat)
    requires OwnInv(pts, owner) && p in owner && owner[p] == Held
    ensures p !in pts && OwnInv(pts[p := Shape(p, map[], map[], map[])], owner[p := In(Root(p))])
  {
    var pts', owner' := pts[p := Shape(p, map[], map[], map[])], owner[p := In(Root(p))];
    forall q | q in pts ensures q != p { assert PlaceAt(pts, Root(q)) == q; }
    forall pl: Place | pl.r in pts'
      ensures PlaceAt(pts', pl) == if pl.r == p then (if pl.Root? then p else 0) else PlaceAt(pts, pl) { }
  }

  lemma EmptyRepr(mem: Mem, p: nat)
    requires p in mem && mem[p] == ZeroPage()
    ensures Repr(mem, Shape(p, map[], map[], map[]))
  {
  }

  lemma RootedSound(s: Vm, p: nat)
    requires Sound(s) && p in s.owner && s.owner[p] == Held && s.mem[p] == ZeroPage()
    ensures p !in s.pts && Sound(Rooted(s, p))
  {
    RootedOwn(s.pts, s.owner, p);
    EmptyRepr(s.mem, p);
    FreeFrame(s.free, s.owner, p, In(Root(p)));
  }

  /** Address space r is new; the others, and all memory in use, are as they were. */
  ghost predicate Opened(s0: Vm, s1: Vm, r: nat) {
    && r !in s0.pts && s1.pts.Keys == s0.pts.Keys + {r} && (forall q :: q in s0.pts ==> s1.pts[q] == s0.pts[q])
    && s1.owner.Keys == s0.owner.Keys && s0.owner.Keys <= s0.mem.Keys && s1.owner.Keys <= s1.mem.Keys
    && (forall p :: p in s0.owner && IsData(s0.owner[p]) ==> s1.owner[p] == s0.owner[p] && s1.mem[p] == s0.mem[p])
    && (forall p :: p in s1.owner && IsData(s1.owner[p]) ==> s0.owner[p] == s1.owner[p])
  }

  lemma RootedOpened(s: Vm)
    requires s.free != [] && s.free[0] in s.mem && s.free[0] in s.owner && s.owner[s.free[0]] == Free
    requires s.owner.Keys <= s.mem.Keys && s.free[0] !in s.pts
    ensures Opened(s, Rooted(TakenAs(s, ZeroPage()), s.free[0]), s.free[0])
  {
  }

  lemma OpenedMore(s0: Vm, s1: Vm, s2: Vm, r: nat)
    requires Opened(s0, s1, r) && Changed(s1, s2, r, 0, 0)
    ensures Opened(s0, s2, r)
  {
  }

  /** Every page has the use it had, and memory in use the contents it had. */
  ghost predicate NothingLost(s0: Vm, s1: Vm) {
    && s1.pts == s0.pts && s1.owner == s0.owner
    && s0.owner.Keys <= s0.mem.Keys && s1.owner.Keys <= s1.mem.Keys
    && (forall p :: p in s0.owner && IsData(s0.owner[p]) ==> s1.mem[p] == s0.mem[p])
  }

  /** The tables of the other address spaces are where they were. */
  lemma OpenedUses(s0: Vm, s1: Vm, r: nat, p: nat)
    requires OwnInv(s0.pts, s0.owner) && OwnInv(s1.pts, s1.owner) && Opened(s0, s1, r) && p in s0.owner
    ensures s0.owner[p] == if OfSpace(s1.owner[p], r) then Free else s1.owner[p]
  {
    if s0.owner[p].In? {
      assert PlaceAt(s0.pts, s0.owner[p].place) == p;
      assert PlaceAt(s1.pts, s0.owner[p].place) == p;
    }
    if s1.owner[p].In? && s1.owner[p].place.r != r {
      assert PlaceAt(s1.pts, s1.owner[p].place) == p;
      assert PlaceAt(s0.pts, s1.owner[p].place) == p;
    }
  }

  /** Making an address space and freeing it again loses no page. */
  lemma OpenedGone(s0: Vm, s1: Vm, s2: Vm, r: nat)
    requires OwnInv(s0.pts, s0.owner) && OwnInv(s1.pts, s1.owner) && Opened(s0, s1, r) && Gone(s1, s2, r)
    ensures NothingLost(s0, s2)
  {
    forall p | p in s0.owner ensures s0.owner[p] == if OfSpace(s1.owner[p], r) then Free else s1.owner[p] {
      OpenedUses(s0, s1, r, p);
    }
    assert s2.owner == s0.owner;
    assert s2.pts == s0.pts;
  }

  ghost predicate Backed(s: Vm, r: nat, u: nat)
    requires r in s.pts && u in s.pts[r].leaf
  {
    var p := PtePage(s.pts[r].leaf[u]);
    p in s.owner && IsUser(s.owner[p]) && p in s.mem
  }

  lemma AllBacked(s: Vm, r: nat)
    requires Sound(s) && r in s.pts
    ensures forall u :: u in s.pts[r].leaf && u < TRAPFRAME ==> Backed(s, r, u)
  {
    forall u | u in s.pts[r].leaf && u < TRAPFRAME ensures Backed(s, r, u) {
      MappedPage(s, r, u);
    }
  }

  lemma OpenedKept(s0: Vm, s1: Vm, q: nat, r: nat)
    requires Opened(s0, s1, q) && r in s0.pts
    requires forall u :: u in s0.pts[r].leaf && u < TRAPFRAME ==> Backed(s0, r, u)
    ensures forall u :: u in s0.pts[r].leaf && u < TRAPFRAME ==> SamePage(s0, s1, r, u)
  {
  }

  /** Opening an address space does not show in any other. */
  lemma OpenedSame(s0: Vm, s1: Vm, q: nat, r: nat)
    requires Sound(s0) && Opened(s0, s1, q) && r in s0.pts
    ensures r in s1.pts && r != q && View(s1, r) == View(s0, r)
  {
    AllBacked(s0, r);
    OpenedKept(s0, s1, q, r);
    SameView(s0, s1, r);
  }

  lemma TwoPagesTop(a: nat, b: nat)
    ensures Vacant(TwoPages(a, b), 0, TRAPFRAME) && TopPages(TwoPages(a, b)) && Top(TwoPages(a, b)) == TwoPages(a, b)
  {
  }

  // ----- The address space of a process -------------------------------------------------------

  /** The mappings above user memory. */
  ghost function Top(leaf: map<nat, nat>): map<nat, nat> {
    map u | u in leaf && TRAPFRAME <= u :: leaf[u]
  }

  /** They are those of the trampoline and the trapframe. */
  ghost predicate TopPages(leaf: map<nat, nat>) {
    && TRAMPOLINE in leaf && TRAPFRAME in leaf
    && forall u :: u in leaf && TRAPFRAME <= u ==> u <= TRAMPOLINE
  }

  /** Address space r is that of a process of size sz: no user page from the size up,
      and the two special pages. */
  ghost predicate ProcessSpace(s: Vm, r: nat, sz: nat) {
    SizeOk(s, r, sz) && TopPages(s.pts[r].leaf)
  }

  lemma NewSpace(s: Vm, r: nat, a: nat, b: nat)
    requires r in s.pts && s.pts[r].leaf == TwoPages(a, b)
    ensures ProcessSpace(s, r, 0)
  {
    TwoPagesTop(a, b);
  }

  lemma SameTop(leaf0: map<nat, nat>, leaf1: map<nat, nat>)
    requires TopPages(leaf0) && Top(leaf1) == Top(leaf0)
    ensures TopPages(leaf1)
  {
    assert TRAMPOLINE in Top(leaf0) && TRAPFRAME in Top(leaf0);
    forall u | u in leaf1 && TRAPFRAME <= u ensures u <= TRAMPOLINE {
      assert u in Top(leaf1);
    }
  }

  lemma FilledTop(s0: Vm, s1: Vm, r: nat, a: nat, b: nat, want: Want)
    requires FilledWith(s0, s1, r, a, b, want) && b <= TRAPFRAME
    ensures Top(s1.pts[r].leaf) == Top(s0.pts[r].leaf)
  {
  }

  lemma UnmappedTop(s0: Vm, s1: Vm, r: nat, a: nat, b: nat)
    requires Unmapped(s0, s1, r, a, b) && b <= TRAPFRAME
    ensures Top(s1.pts[r].leaf) == Top(s0.pts[r].leaf)
  {
  }

  lemma AddedTop(s0: Vm, s1: Vm, r: nat, v: nat, next: nat, x: Shown)
    requires Added(s0, s1, r, v, next, x) && v < TRAPFRAME
    ensures Top(s1.pts[r].leaf) == Top(s0.pts[r].leaf)
  {
  }

  /** What an operation on the memory of one process does at most. */
  ghost predicate Resized(s0: Vm, s1: Vm, r: nat) {
    Changed(s0, s1, r, 0, TRAPFRAME) && Top(s1.pts[r].leaf) == Top(s0.pts[r].leaf)
  }

  lemma ResizedFilled(s0: Vm, s1: Vm, r: nat, a: nat, b: nat, want: Want)
    requires FilledWith(s0, s1, r, a, b, want) && a <= b <= TRAPFRAME
    ensures Resized(s0, s1, r)
  {
    ChangedWider(s0, s1, r, a, b, 0, TRAPFRAME);
    FilledTop(s0, s1, r, a, b, want);
  }

  lemma ResizedUnmapped(s0: Vm, s1: Vm, r: nat, a: nat, b: nat)
    requires Unmapped(s0, s1, r, a, b) && a <= b <= TRAPFRAME
    ensures Resized(s0, s1, r)
  {
    ChangedWider(s0, s1, r, a, b, 0, TRAPFRAME);
    UnmappedTop(s0, s1, r, a, b);
  }

  lemma ResizedAdded(s0: Vm, s1: Vm, r: nat, v: nat, next: nat, x: Shown)
    requires Added(s0, s1, r, v, next, x) && v < TRAPFRAME && next == v + 1
    ensures Resized(s0, s1, r)
  {
    ChangedWider(s0, s1, r, v, next, 0, TRAPFRAME);
    AddedTop(s0, s1, r, v, next, x);
  }

  lemma ResizedGrew(s0: Vm, s1: Vm, r: nat)
    requires Grew(s0, s1, r)
    ensures Resized(s0, s1, r)
  {
    ChangedWider(s0, s1, r, 0, 0, 0, TRAPFRAME);
  }

  /** A process has grown from oldsz to newsz by zeroed pages, or, at the limit or for
      want of memory, not at all. */
  ghost predicate GrownTo(s0: Vm, s1: Vm, r: nat, oldsz: nat, newsz: nat, sz: nat, res: int) {
    && (res == 0 || res == -1) && r in s1.pts && sz == (if res == 0 then newsz else oldsz)
    && (res == 0 ==> FilledWith(s0, s1, r, PageRoundUp(oldsz), PageRoundUp(newsz), Zeroes(UserFlags(4))))
    && (res == -1 ==> Grew(s0, s1, r))
    && (res == -1 ==> newsz > PGSIZE * TRAPFRAME || |s0.free| < 3 * (PageRoundUp(newsz) - PageRoundUp(oldsz)))
  }

  /** A process has shrunk from oldsz to newsz: exactly the pages between are gone. */
  ghost predicate ShrunkTo(s0: Vm, s1: Vm, r: nat, oldsz: nat, newsz: nat) {
    Unmapped(s0, s1, r, PageRoundUp(newsz), PageRoundUp(oldsz))
  }

  /** The address spaces of other processes are as they were. */
  lemma OtherSpace(s0: Vm, s1: Vm, r: nat, q: nat, sz: nat)
    requires ProcessSpace(s0, q, sz) && Resized(s0, s1, r) && q != r
    ensures ProcessSpace(s1, q, sz)
  {
  }

  /** A new address space q, with memory of its own. */
  ghost predicate Spawned(s0: Vm, s1: Vm, q: nat) {
    && q !in s0.pts && s1.pts.Keys == s0.pts.Keys + {q} && (forall r :: r in s0.pts ==> s1.pts[r] == s0.pts[r])
    && s1.owner.Keys == s0.owner.Keys && s0.owner.Keys <= s0.mem.Keys && s1.owner.Keys <= s1.mem.Keys
    && (forall p :: p in s0.owner && IsData(s0.owner[p]) ==> s1.owner[p] == s0.owner[p] && s1.mem[p] == s0.mem[p])
    && (forall p :: p in s1.owner && IsData(s1.owner[p]) && !OfSpace(s1.owner[p], q) ==> s0.owner[p] == s1.owner[p])
  }

  lemma SpawnedOpened(s0: Vm, s1: Vm, s2: Vm, q: nat)
    requires Opened(s0, s1, q) && Resized(s1, s2, q) && OwnInv(s0.pts, s0.owner)
    ensures Spawned(s0, s2, q)
  {
    forall p | p in s0.owner && IsData(s0.owner[p]) ensures s2.owner[p] == s0.owner[p] && s2.mem[p] == s0.mem[p] {
      assert !InRange(s0.owner[p], q, 0, TRAPFRAME);
    }
  }
}
