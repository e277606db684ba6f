/** user/umalloc.c: the storage allocator of section 8.7 of The C Programming
    Language, second edition. */
module Umalloc {
  import opened FreeList

  const HEADER: nat := 16

  /** The units that a request of nbytes needs, header included. */
  function Units(nbytes: nat): (n: nat)
    ensures n >= 1 && nbytes <= HEADER * (n - 1) < nbytes + HEADER
  {
    (nbytes + HEADER - 1) / HEADER + 1
  }

  /** What morecore() asks sbrk() for, in units. */
  function Ask(nunits: nat): nat {
    if nunits < 4096 then 4096 else nunits
  }

  /** A number of bytes, converted to the int that sbrk() takes. */
  function ToInt(x: nat): int {
    var w := x % 0x1_0000_0000;
    if w < 0x8000_0000 then w else w - 0x1_0000_0000
  }

  /** What malloc(nbytes) passes to sbrk(), if it calls it. */
  function SbrkArg(nbytes: nat): int {
    ToInt(HEADER * Ask(Units(nbytes)))
  }

  /** The header of a new region records what was asked of sbrk() exactly up to this
      size of request; beyond it, sbrk() is asked for at least 4 gigabytes less. */
  lemma AskFitsInt(nbytes: nat)
    ensures SbrkArg(nbytes) == HEADER * Ask(Units(nbytes)) <==> nbytes <= 0x7fff_ffe0
    ensures nbytes > 0x7fff_ffe0 ==> SbrkArg(nbytes) <= HEADER * Ask(Units(nbytes)) - 0x1_0000_0000
  {
    if nbytes > 0x7fff_ffe0 { assert HEADER * Ask(Units(nbytes)) >= 0x8000_0000; }
  }

  /** The first such request shrinks the process; a larger one gets 16 bytes for a block
      of 0x1000_0001 units. */
  lemma AskFails()
    ensures SbrkArg(0x7fff_ffe1) == -0x8000_0000
    ensures SbrkArg(0xffff_fff1) == 16 && Units(0xffff_fff1) == 0x1000_0001
  {
  }

  /** What joining the new block with the next one comes to, in terms of memory. */
  ghost predicate UpIs(h: Heap, k: nat, a: nat, next: nat, h2: Heap) {
    && k < |h.ring| && next == k + 1 && a in h.blocks && a in h.size
    && if next < |h.ring| && a + h.blocks[a] == h.ring[next] then
         && h.ring[next] in h.size
         && h2.ptr == h.ptr[a := After(h.ring, next)][h.ring[k] := a]
         && h2.size == h.size[a := h.size[a] + h.size[h.ring[next]]]
       else
         h2.ptr == h.ptr[a := After(h.ring, k)][h.ring[k] := a] && h2.size == h.size
  }

  lemma UpJoined(h: Heap, k: nat, a: nat, next: nat)
    requires next == k + 1 && next < |h.ring| && a in h.blocks && h.ring[next] in h.blocks && a in h.size
    requires h.ring[next] in h.size
    requires h.ring[k] != a
    ensures
      var h1 := Insert(h, k, a);
      && next + 1 < |h1.ring| && h1.ring[next] == a && h1.ring[next + 1] == h.ring[next]
      && Join(h1, next).ptr == h.ptr[a := After(h.ring, next)][h.ring[k] := a]
      && Join(h1, next).size == h.size[a := h.size[a] + h.size[h.ring[next]]]
  {
    InsertedAt(h.ring, k, a, next);
    InsertedAt(h.ring, k, a, next + 1);
    InsertAfter(h.ring, k, a, next + 1);
  }

  lemma UpHolds(h: Heap, base: nat, k: nat, a: nat, next: nat)
    requires Linked(h, base) && BlocksOk(h, base) && Place(h.ring, a, k) && a in h.blocks && next == k + 1
    ensures
      var h1 := Insert(h, k, a);
      next < |h1.ring| && BlocksOk(h1, base) && UpIs(h, k, a, next, JoinNext(h1, next))
  {
    InsertBlocks(h, base, k, a);
    InsertedAt(h.ring, k, a, next);
    if next < |h.ring| {
      assert h.ring[next] in h.blocks;
      UpJoined(h, k, a, next);
    }
  }

  /** The same for the block before it. */
  ghost predicate DownIs(h2: Heap, k: nat, p: nat, a: nat) {
    && k + 1 < |h2.ring| && h2.ring[k] == p && h2.ring[k + 1] == a && h2.freep == p
    && (forall i :: 1 <= i < |h2.ring| ==> h2.ring[i] in h2.blocks && h2.ring[i] in h2.size)
    && (k >= 1 ==> p in h2.size && p in h2.blocks && h2.size[p] == h2.blocks[p])
    && (k == 0 ==> p in h2.size && h2.size[p] == 0 && p < a)
    && a in h2.ptr && h2.ptr[a] == After(h2.ring, k + 1)
  }

  ghost predicate UpReady(h: Heap, k: nat, p: nat, a: nat, next: nat) {
    && k < |h.ring| && p == h.ring[k] && p in h.ptr && h.ptr[p] == After(h.ring, k) && p != a && p in h.size
    && h.ring[0] < a && next == k + 1 && a in h.blocks && a in h.size && h.size[a] == h.blocks[a]
    && (next < |h.ring| ==>
          h.ring[next] in h.size && h.ring[next] in h.ptr && h.ptr[h.ring[next]] == After(h.ring, next))
  }

  lemma UpIsReady(h: Heap, base: nat, k: nat, a: nat, next: nat)
    requires Linked(h, base) && BlocksOk(h, base) && Place(h.ring, a, k) && a in h.blocks && next == k + 1
    ensures UpReady(h, k, h.ring[k], a, next)
  {
    assert LinkAt(h, k);
    if next < |h.ring| { assert LinkAt(h, next) && h.ring[next] in h.blocks; }
    if k > 0 { assert h.ring[k] in h.blocks; }
  }

  /** All that free() relies on and achieves, by way of the half-linked state h2. */
  lemma FreeReady(h: Heap, base: nat, k: nat, a: nat, next: nat) returns (h2: Heap)
    requires Sound(h, base) && Place(h.ring, a, k) && a in h.blocks && next == k + 1
    ensures UpReady(h, k, h.ring[k], a, next) && UpIs(h, k, a, next, h2) && DownIs(h2, k, h.ring[k], a)
    ensures Freed(h, JoinNext(h2, k), base, a)
  {
    UpIsReady(h, base, k, a, next);
    HalfSound(h, base, k, a, next);
    UpHolds(h, base, k, a, next);
    h2 := JoinNext(Insert(h, k, a), next);
    WholeSound(h, h2, base, k, a);
    DownHolds(h, h2, base, k, h.ring[k], a);
  }

  lemma FreepIsSet(h: Heap, base: nat)
    requires Linked(h, base) && base != 0
    ensures h.freep != 0
  {
    var i :| 0 <= i < |h.ring| && h.ring[i] == h.freep;
    assert i > 0 ==> h.ring[0] < h.ring[i];
  }

  /** The n units from a on have been added. */
  ghost predicate MoreUnits(b0: map<nat, nat>, b1: map<nat, nat>, a: nat, n: nat) {
    forall u: nat :: Covered(b1, u) <==> Covered(b0, u) || a <= u < a + n
  }

  /** No unit is lost, and none gained but those from sbrk(). */
  ghost predicate Conserved(b0: map<nat, nat>, b1: map<nat, nat>, grew: bool, a: nat, n: nat) {
    if grew then MoreUnits(b0, b1, a, n) else SameUnits(b0, b1)
  }

  lemma DownHolds(h: Heap, h2: Heap, base: nat, k: nat, p: nat, a: nat)
    requires HalfFreed(h, h2, base, k, a) && p == h.ring[k]
    ensures DownIs(h2, k, p, a)
  {
    assert LinkAt(h2, k + 1);
  }

  function Succ(i: nat, n: nat): nat {
    if i + 1 < n then i + 1 else 0
  }

  function Pred(i: nat, n: nat): int {
    if i > 0 then i - 1 else n - 1
  }

  /** Going up the ring from after f, entry j comes before entry i. */
  predicate Scanned(f: nat, i: nat, j: nat) {
    if i > f then f < j < i else j > f || j < i
  }

  predicate SizeOk(h: Heap, i: nat) {
    && i < |h.ring| && h.ring[i] in h.size
    && if i == 0 then h.size[h.ring[i]] == 0 else h.ring[i] in h.blocks && h.size[h.ring[i]] == h.blocks[h.ring[i]]
  }

  predicate Small(h: Heap, j: nat, n: nat) {
    SizeOk(h, j) && h.size[h.ring[j]] < n
  }

  /** No block on the free list has n units. */
  predicate NoneFits(h: Heap, n: nat) {
    forall j :: 0 <= j < |h.ring| ==> Small(h, j, n)
  }

  lemma SizeThere(h: Heap, base: nat, i: nat)
    requires Linked(h, base) && BlocksOk(h, base) && i < |h.ring|
    ensures SizeOk(h, i)
  {
    if i > 0 { assert h.ring[i] in h.blocks; }
  }

  /** What the search relies on. */
  ghost predicate Walkable(h: Heap) {
    && |h.ring| > 0 && Ascending(h.ring) && h.freep in h.ring
    && forall i :: 0 <= i < |h.ring| ==> LinkAt(h, i) && SizeOk(h, i)
  }

  lemma SoundWalkable(h: Heap, base: nat)
    requires Linked(h, base) && BlocksOk(h, base)
    ensures Walkable(h)
  {
    forall i | 0 <= i < |h.ring| ensures LinkAt(h, i) && SizeOk(h, i) { SizeThere(h, base, i); }
  }

  lemma GivenIsAbove(h: Heap, h': Heap, base: nat, a: nat, n: nat)
    requires Given(h, h', base, a, n)
    ensures a > base
  {
    assert a in Live(h');
  }

  lemma ConservedAfter(b0: map<nat, nat>, b1: map<nat, nat>, b2: map<nat, nat>, grew: bool, a: nat, n: nat)
    requires (if grew then MoreUnits(b0, b1, a, n) else b1 == b0) && SameUnits(b1, b2)
    ensures Conserved(b0, b2, grew, a, n)
  {
  }

  lemma ExtendUnits(b: map<nat, nat>, a: nat, n: nat)
    requires a !in b
    ensures MoreUnits(b, b[a := n], a, n)
  {
    forall u: nat ensures Covered(b[a := n], u) <==> Covered(b, u) || a <= u < a + n {
      var b' := b[a := n];
      if Covered(b, u) {
        var x :| x in b && x <= u < x + b[x];
        assert x in b' && x <= u < x + b'[x];
      }
      if a <= u < a + n { assert a in b' && a <= u < a + b'[a]; }
    }
  }

  lemma LiveAgain(h: Heap, a: nat, n: nat)
    requires a !in h.blocks && a !in h.ring
    ensures a in Live(Extend(h, a, n)) && Live(Extend(h, a, n)) - {a} == Live(h)
  {
  }

  class Allocator {
    /** &base; the heap is above it. */
    const base: nat
    var ptr: map<nat, nat>
    var size: map<nat, nat>
    /** 0 until the first malloc(). */
    var freep: nat
    ghost var ring: seq<nat>
    ghost var blocks: map<nat, nat>

    ghost function S(): Heap
      reads this
    {
      Heap(ptr, size, freep, ring, blocks)
    }

    ghost predicate Valid()
      reads this
    {
      base != 0 && if freep == 0 then blocks == map[] && ring == [] else Sound(S(), base)
    }

    constructor (b: nat)
      requires b != 0
      ensures Valid() && base == b && freep == 0 && Live(S()) == map[]
    {
      base, ptr, size, freep, ring, blocks := b, map[], map[], 0, [], map[];
    }

    /** The search loop of free(): the block of the ring after which a belongs. */
    method FindPlace(a: nat) returns (p: nat, ghost k: nat)
      requires Sound(S(), base) && base < a && a !in ring
      ensures Place(ring, a, k) && p == ring[k]
    {
      k := PlaceExists(ring, a);
      p := freep;
      ghost var i :| 0 <= i < |ring| && ring[i] == freep;
      assert LinkAt(S(), i);
      while !(a > p && a < ptr[p])
        invariant 0 <= i < |ring| && p == ring[i] && p in ptr && ptr[p] == After(ring, i)
        invariant Place(ring, a, k)
        decreases if i <= k then k - i else |ring| - i + k
      {
        BetweenIsPlace(ring, a, i, k);
        if p >= ptr[p] && (a > p || a < ptr[p]) {
          return;
        }
        p := ptr[p];
        i := if i + 1 < |ring| then i + 1 else 0;
        assert LinkAt(S(), i);
      }
      BetweenIsPlace(ring, a, i, k);
    }

    /** First half of the linking in free(): the block gets its successor, or takes it
        over if they touch. */
    method LinkUp(p: nat, a: nat, ghost k: nat, ghost next: nat, ghost h2: Heap)
      requires UpReady(S(), k, p, a, next) && UpIs(S(), k, a, next, h2)
      modifies `ptr, `size
      ensures ptr[p := a] == h2.ptr && size == h2.size && a in ptr && a in size && p in ptr
    {
      if a + size[a] == ptr[p] {
        var u := ptr[p];
        size := size[a := size[a] + size[u]];
        ptr := ptr[a := ptr[u]];
      } else {
        ptr := ptr[a := ptr[p]];
      }
    }

    /** Second half: its predecessor points to the block, or takes it over. */
    method LinkDown(p: nat, a: nat, ghost k: nat, ghost h2: Heap)
      requires p in ptr && a in ptr && p in size && a in size && p != a
      requires ptr[p := a] == h2.ptr && size == h2.size && DownIs(h2, k, p, a)
      modifies `ptr, `size, `freep, `ring, `blocks
      ensures S() == JoinNext(h2, k)
    {
      if p + size[p] == a {
        size := size[p := size[p] + size[a]];
        ptr := ptr[p := ptr[a]];
      } else {
        ptr := ptr[p := a];
      }
      freep := p;
      ring, blocks := JoinNext(h2, k).ring, JoinNext(h2, k).blocks;
    }

    method LinkIn(p: nat, a: nat, ghost k: nat, ghost next: nat, ghost h2: Heap)
      requires UpReady(S(), k, p, a, next) && UpIs(S(), k, a, next, h2) && DownIs(h2, k, p, a)
      modifies `ptr, `size, `freep, `ring, `blocks
      ensures S() == JoinNext(h2, k)
    {
      LinkUp(p, a, k, next, h2);
      LinkDown(p, a, k, h2);
    }

    /** free(), given the address of the header. */
    method Free(a: nat)
      requires Valid() && a in Live(S())
      modifies `ptr, `size, `freep, `ring, `blocks
      ensures freep != 0 && Sound(S(), base) && Freed(old(S()), S(), base, a)
    {
      var p, k := FindPlace(a);
      ghost var next := k + 1;
      ghost var h2 := FreeReady(S(), base, k, a, next);
      LinkIn(p, a, k, next, h2);
      FreepIsSet(S(), base);
    }

    /** morecore(), where sbrk() has answered `brk`, 0 for failure; false if it fails. */
    method Morecore(nu: nat, brk: nat) returns (ok: bool)
      requires freep != 0 && Valid() && (brk != 0 ==> Fresh(S(), base, brk, nu))
      modifies `ptr, `size, `freep, `ring, `blocks
      ensures ok <==> brk != 0
      ensures !ok ==> S() == old(S())
      ensures ok ==> freep != 0 && Sound(S(), base) && Live(S()) == Live(old(S())) && OnRing(S(), brk, nu)
      ensures ok ==> MoreUnits(old(blocks), blocks, brk, nu)
    {
      if brk == 0 {
        return false;
      }
      ExtendSound(S(), base, brk, nu);
      ExtendUnits(blocks, brk, nu);
      LiveAgain(S(), brk, nu);
      size := size[brk := nu];
      blocks := blocks[brk := nu];
      assert S() == Extend(old(S()), brk, nu);
      Free(brk);
      ok := true;
    }

    /** The search of malloc(), once around the ring: the first block after freep that
        is large enough, and the one before it. */
    method Search(nunits: nat) returns (found: bool, prevp: nat, p: nat, ghost i: nat)
      requires Walkable(S()) && nunits >= 1
      ensures found ==> 1 <= i < |ring| && p == ring[i] && prevp == ring[i - 1] && p in size && size[p] >= nunits
      ensures !found ==> NoneFits(S(), nunits)
    {
      ghost var f :| 0 <= f < |ring| && ring[f] == freep;
      assert LinkAt(S(), f);
      prevp, p := freep, ptr[freep];
      i := Succ(f, |ring|);
      assert SizeOk(S(), i);
      while size[p] < nunits
        invariant 0 <= i < |ring| && p == ring[i] && prevp == ring[Pred(i, |ring|)] && SizeOk(S(), i)
        invariant forall j :: 0 <= j < |ring| && Scanned(f, i, j) ==> Small(S(), j, nunits)
        decreases if i <= f then f - i else |ring| - i + f
      {
        if p == freep {
          assert i == f;
          found := false;
          return;
        }
        assert LinkAt(S(), i);
        prevp, p := p, ptr[p];
        i := Succ(i, |ring|);
        assert SizeOk(S(), i);
      }
      found := true;
    }

    method TakeWhole(prevp: nat, p: nat, ghost i: nat)
      requires 1 <= i < |ring| && p == ring[i] && prevp == ring[i - 1] && p in ptr && ptr[p] == After(ring, i)
      modifies `ptr, `freep, `ring
      ensures S() == Unlink(old(S()), i)
    {
      ptr := ptr[prevp := ptr[p]];
      ring := Removed(ring, i);
      freep := prevp;
    }

    method TakeTail(prevp: nat, p: nat, nunits: nat, ghost i: nat) returns (a: nat)
      requires 1 <= i < |ring| && p == ring[i] && prevp == ring[i - 1] && p in size && size[p] > nunits
      modifies `size, `freep, `blocks
      ensures a == p + old(size)[p] - nunits && S() == Carve(old(S()), i, nunits, a)
    {
      size := size[p := size[p] - nunits];
      a := p + size[p];
      size := size[a := nunits];
      blocks := blocks[p := a - p][a := nunits];
      freep := prevp;
    }

    /** The rest of malloc(): the whole block, or its tail. */
    method Take(prevp: nat, p: nat, nunits: nat, ghost i: nat) returns (a: nat)
      requires Sound(S(), base) && 1 <= i < |ring| && p == ring[i] && prevp == ring[i - 1] && p in size
      requires size[p] >= nunits >= 1
      modifies `ptr, `size, `freep, `ring, `blocks
      ensures Given(old(S()), S(), base, a, nunits)
    {
      SizeThere(S(), base, i);
      if size[p] == nunits {
        assert LinkAt(S(), i);
        UnlinkSound(S(), base, i);
        TakeWhole(prevp, p, i);
        a := p;
      } else {
        CarveSound(S(), base, i, nunits, p + size[p] - nunits);
        a := TakeTail(prevp, p, nunits, i);
      }
    }

    /** The ring consists of base alone to begin with. */
    method Init()
      requires Valid()
      modifies `ptr, `size, `freep, `ring
      ensures freep != 0 && Sound(S(), base) && Live(S()) == Live(old(S())) && blocks == old(blocks)
    {
      if freep == 0 {
        ptr, size, freep := ptr[base := base], size[base := 0], base;
        ring := [base];
        assert LinkAt(S(), 0);
      }
    }

    /** The loop of malloc(): a block that is large enough, after morecore() if need be. */
    method Find(nunits: nat, nu: nat, brk: nat, fits: bool)
      returns (found: bool, overrun: bool, prevp: nat, p: nat, ghost i: nat, ghost grew: bool)
      requires freep != 0 && Valid() && 1 <= nunits <= nu && (brk != 0 && fits ==> Fresh(S(), base, brk, nu))
      modifies `ptr, `size, `freep, `ring, `blocks
      ensures freep != 0 && Sound(S(), base) && Live(S()) == Live(old(S()))
      ensures if grew then MoreUnits(old(blocks), blocks, brk, nu) else blocks == old(blocks)
      ensures found ==> 1 <= i < |ring| && p == ring[i] && prevp == ring[i - 1] && p in size && size[p] >= nunits
      ensures !found ==> !grew && NoneFits(S(), nunits) && (overrun <==> brk != 0)
      ensures overrun ==> !found && !fits && S() == old(S())
      ensures grew ==> NoneFits(old(S()), nunits)
    {
      SoundWalkable(S(), base);
      found, prevp, p, i := Search(nunits);
      grew, overrun := false, false;
      if !found {
        if !fits && brk != 0 {
          overrun := true;
          return;
        }
        var ok := Morecore(nu, brk);
        grew := ok;
        if ok {
          ghost var j := BigEnough(S(), brk, nu, nunits);
          SoundWalkable(S(), base);
          assert SizeOk(S(), j) && !Small(S(), j, nunits);
          found, prevp, p, i := Search(nunits);
        }
      }
    }

    /** malloc(), where sbrk(), if it is called, answers `brk`, 0 for failure: the header
        of the new block, 0 if there is no memory. `overrun` says that morecore() is about
        to record more memory than it got; nothing is said of what comes after. */
    method Malloc(nbytes: nat, brk: nat) returns (a: nat, overrun: bool, ghost grew: bool)
      requires Valid() && nbytes < 0x1_0000_0000
      requires brk != 0 && SbrkArg(nbytes) == HEADER * Ask(Units(nbytes)) ==> Fresh(S(), base, brk, Ask(Units(nbytes)))
      modifies `ptr, `size, `freep, `ring, `blocks
      ensures Valid() && freep != 0
      ensures overrun ==> nbytes > 0x7fff_ffe0 && brk != 0 && NoneFits(S(), Units(nbytes)) && a == 0
      ensures a == 0 ==> (overrun || brk == 0) && NoneFits(S(), Units(nbytes))
      ensures a == 0 ==> !grew && Live(S()) == Live(old(S())) && blocks == old(blocks)
      ensures a != 0 ==> a !in Live(old(S())) && Live(S()) == Live(old(S()))[a := Units(nbytes)]
      ensures a != 0 ==> Conserved(old(blocks), blocks, grew, brk, Ask(Units(nbytes)))
    {
      var nunits := Units(nbytes);
      var fits := SbrkArg(nbytes) == HEADER * Ask(nunits);
      AskFitsInt(nbytes);
      Init();
      var found, over, prevp, p, i, g := Find(nunits, Ask(nunits), brk, fits);
      grew := g;
      if !found {
        return 0, over, false;
      }
      ghost var s1 := S();
      overrun := false;
      a := Take(prevp, p, nunits, i);
      FreepIsSet(S(), base);
      GivenIsAbove(s1, S(), base, a, nunits);
      ConservedAfter(old(blocks), s1.blocks, blocks, g, brk, Ask(nunits));
    }
  }
}
