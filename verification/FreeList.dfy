/** The free list of user/umalloc.c: a ring of blocks in address order, starting at
    the static header `base`, threaded through the headers in memory. Addresses
    and sizes are in units of sizeof(Header). */
module FreeList {

  /** The header fields in memory, freep, and two history variables: the addresses on
      the ring, from base up, and the size of every block in the heap, free or not. */
  datatype Heap = Heap(ptr: map<nat, nat>, size: map<nat, nat>, freep: nat, ring: seq<nat>, blocks: map<nat, nat>)

  /** The address after ring[i]. */
  function After(ring: seq<nat>, i: nat): nat
    requires i < |ring|
  {
    if i + 1 < |ring| then ring[i + 1] else ring[0]
  }

  ghost predicate Ascending(ring: seq<nat>) {
    forall i, j :: 0 <= i < j < |ring| ==> ring[i] < ring[j]
  }

  /** The ring starts at base and goes up in address order; its pointers are in
      memory. */
  ghost predicate Linked(h: Heap, base: nat) {
    && |h.ring| > 0 && h.ring[0] == base && Ascending(h.ring) && h.freep in h.ring
    && (forall i :: 0 <= i < |h.ring| ==> LinkAt(h, i))
  }

  predicate LinkAt(h: Heap, i: nat) {
    i < |h.ring| && h.ring[i] in h.ptr && h.ptr[h.ring[i]] == After(h.ring, i)
  }

  /** Blocks do not overlap, lie above base and have their size in memory. */
  ghost predicate BlocksOk(h: Heap, base: nat) {
    && base !in h.blocks && base in h.size && h.size[base] == 0
    && (forall a :: a in h.blocks ==> base < a && h.blocks[a] > 0 && a in h.size && h.size[a] == h.blocks[a])
    && (forall a, b :: a in h.blocks && b in h.blocks && a < b ==> a + h.blocks[a] <= b)
    && (forall i :: 1 <= i < |h.ring| ==> h.ring[i] in h.blocks)
  }

  /** Ring neighbours i and i + 1 have something in use between them. */
  ghost predicate Apart(h: Heap, i: nat) {
    i + 1 < |h.ring| && h.ring[i] in h.blocks ==> h.ring[i] + h.blocks[h.ring[i]] < h.ring[i + 1]
  }

  /** No two neighbours are adjacent, except perhaps those at k and at m. */
  ghost predicate ApartBut(h: Heap, k: int, m: int) {
    forall i {:trigger Apart(h, i)} :: 0 <= i < |h.ring| && i != k && i != m ==> Apart(h, i)
  }

  ghost predicate Sound(h: Heap, base: nat) {
    Linked(h, base) && BlocksOk(h, base) && ApartBut(h, -1, -1)
  }

  /** Unit u is in one of the blocks. */
  ghost predicate Covered(blocks: map<nat, nat>, u: nat) {
    exists a :: a in blocks && a <= u < a + blocks[a]
  }

  ghost predicate SameUnits(b0: map<nat, nat>, b1: map<nat, nat>) {
    forall u: nat :: Covered(b1, u) <==> Covered(b0, u)
  }

  /** The blocks that malloc() has given out. */
  function Live(h: Heap): map<nat, nat> {
    map a | a in h.blocks && a !in h.ring :: h.blocks[a]
  }

  /** k is the place for address a: after ring[k], before the next. */
  ghost predicate Place(ring: seq<nat>, a: nat, k: nat) {
    k < |ring| && ring[k] < a && (k + 1 < |ring| ==> a < ring[k + 1])
  }

  lemma {:induction false} PlaceExists(ring: seq<nat>, a: nat) returns (k: nat)
    requires |ring| > 0 && ring[0] < a && a !in ring
    ensures Place(ring, a, k)
  {
    if |ring| > 1 && ring[1] < a {
      k := PlaceExists(ring[1..], a);
      k := k + 1;
    } else {
      k := 0;
    }
  }

  // ----- free(), first half: the block is linked in, joined with the next one if they touch -----

  function Inserted(ring: seq<nat>, k: nat, a: nat): seq<nat>
    requires k < |ring|
  {
    ring[..k + 1] + [a] + ring[k + 1..]
  }

  lemma InsertedAt(ring: seq<nat>, k: nat, a: nat, i: nat)
    requires k < |ring| && i <= |ring|
    ensures Inserted(ring, k, a)[i] == if i <= k then ring[i] else if i == k + 1 then a else ring[i - 1]
  {
  }

  /** Linked in between ring[k], where freep now points, and the next. */
  function Insert(h: Heap, k: nat, a: nat): Heap
    requires k < |h.ring|
  {
    h.(ptr := h.ptr[a := After(h.ring, k)][h.ring[k] := a], freep := h.ring[k], ring := Inserted(h.ring, k, a))
  }

  lemma InsertedAscending(ring: seq<nat>, k: nat, a: nat)
    requires Ascending(ring) && Place(ring, a, k)
    ensures Ascending(Inserted(ring, k, a))
  {
    forall i, j | 0 <= i < j <= |ring| ensures Inserted(ring, k, a)[i] < Inserted(ring, k, a)[j] {
      InsertedAt(ring, k, a, i);
      InsertedAt(ring, k, a, j);
    }
  }

  lemma InsertAfter(ring: seq<nat>, k: nat, a: nat, i: nat)
    requires k < |ring| && i <= |ring|
    ensures After(Inserted(ring, k, a), i) == if i < k then After(ring, i) else if i == k then a else After(ring, i - 1)
  {
    InsertedAt(ring, k, a, 0);
    if i + 1 <= |ring| { InsertedAt(ring, k, a, i + 1); }
  }

  lemma InsertLinked(h: Heap, base: nat, k: nat, a: nat)
    requires Linked(h, base) && Place(h.ring, a, k)
    ensures Linked(Insert(h, k, a), base)
  {
    var h' := Insert(h, k, a);
    InsertedAscending(h.ring, k, a);
    InsertedAt(h.ring, k, a, 0);
    forall i | 0 <= i < |h'.ring| ensures LinkAt(h', i) {
      InsertedAt(h.ring, k, a, i);
      InsertAfter(h.ring, k, a, i);
      assert i <= k ==> LinkAt(h, i);
      assert i > k ==> LinkAt(h, i - 1);
    }
    InsertedAt(h.ring, k, a, k);
  }

  lemma InsertBlocks(h: Heap, base: nat, k: nat, a: nat)
    requires Linked(h, base) && BlocksOk(h, base) && Place(h.ring, a, k) && a in h.blocks
    ensures BlocksOk(Insert(h, k, a), base)
  {
    var h' := Insert(h, k, a);
    forall i | 1 <= i < |h'.ring| ensures h'.ring[i] in h'.blocks { InsertedAt(h.ring, k, a, i); }
  }

  lemma InsertApart(h: Heap, k: nat, a: nat, next: nat)
    requires ApartBut(h, -1, -1) && k < |h.ring| && next == k + 1
    ensures ApartBut(Insert(h, k, a), k, next)
  {
    var h' := Insert(h, k, a);
    forall i {:trigger Apart(h', i)} | 0 <= i < |h'.ring| && i != k && i != next ensures Apart(h', i) {
      InsertedAt(h.ring, k, a, i);
      if i + 1 < |h'.ring| { InsertedAt(h.ring, k, a, i + 1); }
      assert Apart(h, if i < k then i else i - 1);
    }
  }

  lemma InsertLive(h: Heap, k: nat, a: nat)
    requires k < |h.ring|
    ensures Live(Insert(h, k, a)) == Live(h) - {a}
  {
    var ring' := Inserted(h.ring, k, a);
    forall x ensures x in ring' <==> x in h.ring || x == a {
      if x in h.ring {
        var i :| 0 <= i < |h.ring| && h.ring[i] == x;
        InsertedAt(h.ring, k, a, if i <= k then i else i + 1);
      }
      InsertedAt(h.ring, k, a, k + 1);
    }
  }

  // ----- Taking an entry off the ring ---------------------------------------------------------

  function Removed(ring: seq<nat>, j: nat): seq<nat>
    requires j < |ring|
  {
    ring[..j] + ring[j + 1..]
  }

  lemma RemovedAt(ring: seq<nat>, j: nat, i: nat)
    requires j < |ring| && i < |ring| - 1
    ensures Removed(ring, j)[i] == ring[if i < j then i else i + 1]
  {
  }

  lemma RemovedAfter(ring: seq<nat>, j: nat, i: nat)
    requires 1 <= j < |ring| && i < |ring| - 1
    ensures After(Removed(ring, j), i) == if i < j - 1 then After(ring, i) else After(ring, i + 1)
  {
    RemovedAt(ring, j, 0);
    if i + 1 < |ring| - 1 { RemovedAt(ring, j, i + 1); }
  }

  lemma RemovedMember(ring: seq<nat>, j: nat, x: nat)
    requires Ascending(ring) && j < |ring|
    ensures x in Removed(ring, j) <==> x in ring && x != ring[j]
  {
    if x in ring && x != ring[j] {
      var i :| 0 <= i < |ring| && ring[i] == x;
      RemovedAt(ring, j, if i < j then i else i - 1);
    }
  }

  lemma RemovedAscending(ring: seq<nat>, j: nat)
    requires Ascending(ring) && j < |ring|
    ensures Ascending(Removed(ring, j))
  {
    forall x, y | 0 <= x < y < |ring| - 1 ensures Removed(ring, j)[x] < Removed(ring, j)[y] {
      RemovedAt(ring, j, x);
      RemovedAt(ring, j, y);
    }
  }

  /** The predecessor of ring[j] points past it. */
  lemma RemoveLinked(h: Heap, h': Heap, base: nat, j: nat)
    requires Linked(h, base) && 1 <= j < |h.ring| && h'.ring == Removed(h.ring, j) && h'.freep in h'.ring
    requires h'.ptr == h.ptr[h.ring[j - 1] := After(h.ring, j)]
    ensures Linked(h', base)
  {
    RemovedAscending(h.ring, j);
    RemovedAt(h.ring, j, 0);
    forall i | 0 <= i < |h'.ring| ensures LinkAt(h', i) {
      RemovedAt(h.ring, j, i);
      RemovedAfter(h.ring, j, i);
      assert i < j ==> LinkAt(h, i);
      assert i >= j ==> LinkAt(h, i + 1);
    }
  }

  // ----- Joining two adjacent free blocks ---------------------------------------------------------

  ghost predicate Touch(h: Heap, k: nat) {
    && k + 1 < |h.ring| && h.ring[k] in h.blocks && h.ring[k + 1] in h.blocks
    && h.ring[k] + h.blocks[h.ring[k]] == h.ring[k + 1]
  }

  function Join(h: Heap, k: nat): Heap
    requires k + 1 < |h.ring| && h.ring[k] in h.blocks && h.ring[k + 1] in h.blocks && h.ring[k] in h.size
    requires h.ring[k + 1] in h.size
  {
    var x, y := h.ring[k], h.ring[k + 1];
    h.(ptr := h.ptr[x := After(h.ring, k + 1)], size := h.size[x := h.size[x] + h.size[y]],
       ring := Removed(h.ring, k + 1),
       blocks := (h.blocks - {y})[x := h.blocks[x] + h.blocks[y]])
  }

  lemma JoinBlocks(h: Heap, base: nat, k: nat)
    requires Linked(h, base) && BlocksOk(h, base) && Touch(h, k)
    ensures BlocksOk(Join(h, k), base)
  {
    var h', x, y := Join(h, k), h.ring[k], h.ring[k + 1];
    forall i | 1 <= i < |h'.ring| ensures h'.ring[i] in h'.blocks {
      RemovedAt(h.ring, k + 1, i);
    }
  }

  lemma JoinLinked(h: Heap, base: nat, k: nat)
    requires Linked(h, base) && BlocksOk(h, base) && Touch(h, k) && h.freep != h.ring[k + 1]
    ensures Linked(Join(h, k), base)
  {
    RemovedMember(h.ring, k + 1, h.freep);
    RemoveLinked(h, Join(h, k), base, k + 1);
  }

  lemma JoinApart(h: Heap, base: nat, k: nat, e: int)
    requires Linked(h, base) && BlocksOk(h, base) && Touch(h, k) && ApartBut(h, k, e) && e < k
    ensures ApartBut(Join(h, k), e, -1)
  {
    var h' := Join(h, k);
    forall i {:trigger Apart(h', i)} | 0 <= i < |h'.ring| && i != e ensures Apart(h', i) {
      RemovedAt(h.ring, k + 1, i);
      if i + 1 < |h'.ring| { RemovedAt(h.ring, k + 1, i + 1); }
      assert i < k ==> Apart(h, i);
      assert i >= k ==> Apart(h, i + 1);
    }
  }

  lemma JoinLive(h: Heap, base: nat, k: nat)
    requires Linked(h, base) && BlocksOk(h, base) && Touch(h, k)
    ensures Live(Join(h, k)) == Live(h)
  {
    forall x ensures x in Removed(h.ring, k + 1) <==> x in h.ring && x != h.ring[k + 1] {
      if x >= 0 { RemovedMember(h.ring, k + 1, x); }
    }
  }

  lemma JoinUnits(h: Heap, base: nat, k: nat)
    requires BlocksOk(h, base) && Touch(h, k)
    ensures SameUnits(h.blocks, Join(h, k).blocks)
  {
    var b', x, y := Join(h, k).blocks, h.ring[k], h.ring[k + 1];
    forall u: nat ensures Covered(b', u) <==> Covered(h.blocks, u) {
      if Covered(h.blocks, u) {
        var a :| a in h.blocks && a <= u < a + h.blocks[a];
        assert if a == y then x in b' && x <= u < x + b'[x] else a in b' && a <= u < a + b'[a];
      }
      if Covered(b', u) {
        var a :| a in b' && a <= u < a + b'[a];
        assert if a == x && u >= y then y <= u < y + h.blocks[y] else a in h.blocks && a <= u < a + h.blocks[a];
      }
    }
  }

  // ----- free() ---------------------------------------------------------------------------------

  /** The two tests of free(), at a block of the ring and its successor. */
  predicate Between(a: nat, p: nat, next: nat) {
    (a > p && a < next) || (p >= next && (a > p || a < next))
  }

  /** They single out the place of the block. */
  lemma BetweenIsPlace(ring: seq<nat>, a: nat, i: nat, k: nat)
    requires Ascending(ring) && i < |ring| && Place(ring, a, k) && ring[0] < a
    ensures Between(a, ring[i], After(ring, i)) <==> i == k
  {
    if i < k { assert ring[i + 1] <= ring[k]; }
    if k < i { assert ring[k + 1] <= ring[i]; }
  }

  function JoinNext(h: Heap, k: nat): Heap
    requires k < |h.ring| && forall i :: 1 <= i < |h.ring| ==> h.ring[i] in h.blocks && h.ring[i] in h.size
  {
    if k >= 1 && k + 1 < |h.ring| && h.ring[k] + h.blocks[h.ring[k]] == h.ring[k + 1] then Join(h, k) else h
  }

  /** Joined with the next block if they touch. */
  lemma JoinNextSound(h: Heap, base: nat, k: nat, e: int)
    requires Linked(h, base) && BlocksOk(h, base) && ApartBut(h, k, e) && e < k < |h.ring|
    requires (k + 1 < |h.ring| ==> h.freep != h.ring[k + 1])
    ensures
      var h' := JoinNext(h, k);
      && Linked(h', base) && BlocksOk(h', base) && ApartBut(h', e, -1) && Live(h') == Live(h)
      && SameUnits(h.blocks, h'.blocks)
      && h'.freep == h.freep && k < |h'.ring| && (forall i :: 0 <= i <= k ==> h'.ring[i] == h.ring[i])
      && (k + 1 < |h'.ring| ==> h'.ring[k + 1] in h.ring && h'.ring[k + 1] >= h.ring[k + 1])
  {
    if k >= 1 && Touch(h, k) {
      JoinBlocks(h, base, k);
      JoinLinked(h, base, k);
      JoinApart(h, base, k, e);
      JoinLive(h, base, k);
      JoinUnits(h, base, k);
      if k + 2 < |h.ring| { RemovedAt(h.ring, k + 1, k + 1); }
    } else {
      NotTouching(h, base, k, e);
    }
  }

  lemma NotTouching(h: Heap, base: nat, k: nat, e: int)
    requires Linked(h, base) && BlocksOk(h, base) && ApartBut(h, k, e) && k < |h.ring| && (k == 0 || !Touch(h, k))
    ensures ApartBut(h, e, -1)
  {
    assert Apart(h, k) by {
      if k >= 1 && k + 1 < |h.ring| { assert h.ring[k] in h.blocks && h.ring[k + 1] in h.blocks; }
    }
    forall i {:trigger Apart(h, i)} | 0 <= i < |h.ring| && i != e ensures Apart(h, i) { }
  }

  /** The n units from a on are within one block of the ring. */
  ghost predicate OnRing(h: Heap, a: nat, n: nat) {
    exists i :: 1 <= i < |h.ring| && h.ring[i] in h.blocks && h.ring[i] <= a && a + n <= h.ring[i] + h.blocks[h.ring[i]]
  }

  /** What free() must achieve for the block at a: it is no longer given out, it is on
      the ring, and no unit is gained or lost. */
  ghost predicate Freed(h: Heap, h': Heap, base: nat, a: nat) {
    && Sound(h', base) && Live(h') == Live(h) - {a} && SameUnits(h.blocks, h'.blocks)
    && a in h.blocks && OnRing(h', a, h.blocks[a])
  }

  lemma SameUnitsTrans(b0: map<nat, nat>, b1: map<nat, nat>, b2: map<nat, nat>)
    requires SameUnits(b0, b1) && SameUnits(b1, b2)
    ensures SameUnits(b0, b2)
  {
  }

  /** Inserted and joined with what it touches above. */
  ghost predicate HalfFreed(h: Heap, h': Heap, base: nat, k: nat, a: nat) {
    && k + 1 < |h'.ring| && h'.ring[k + 1] == a && k < |h.ring| && h'.ring[k] == h.ring[k] == h'.freep
    && Linked(h', base) && BlocksOk(h', base) && ApartBut(h', k, -1)
    && Live(h') == Live(h) - {a} && SameUnits(h.blocks, h'.blocks)
    && a in h.blocks && a in h'.blocks && h'.blocks[a] >= h.blocks[a]
  }

  lemma InsertSound(h: Heap, base: nat, k: nat, a: nat, next: nat)
    requires Sound(h, base) && Place(h.ring, a, k) && a in h.blocks && next == k + 1
    ensures
      var h1 := Insert(h, k, a);
      && Linked(h1, base) && BlocksOk(h1, base) && ApartBut(h1, next, k) && Live(h1) == Live(h) - {a}
      && h1.blocks == h.blocks
      && next < |h1.ring| && h1.ring[next] == a && h1.ring[k] == h.ring[k] == h1.freep
      && (next + 1 < |h1.ring| ==>
            next < |h.ring| && h1.ring[next + 1] == h.ring[next] && h1.freep != h1.ring[next + 1])
  {
    InsertLinked(h, base, k, a);
    InsertBlocks(h, base, k, a);
    InsertApart(h, k, a, next);
    InsertLive(h, k, a);
    InsertedAt(h.ring, k, a, k);
    InsertedAt(h.ring, k, a, next);
    if next < |h.ring| { InsertedAt(h.ring, k, a, next + 1); }
  }

  lemma HalfSound(h: Heap, base: nat, k: nat, a: nat, next: nat)
    requires Sound(h, base) && Place(h.ring, a, k) && a in h.blocks && next == k + 1
    ensures
      var h1 := Insert(h, k, a);
      next < |h1.ring| && BlocksOk(h1, base) && HalfFreed(h, JoinNext(h1, next), base, k, a)
  {
    InsertSound(h, base, k, a, next);
    JoinNextSound(Insert(h, k, a), base, next, k);
  }

  lemma WholeSound(h: Heap, h2: Heap, base: nat, k: nat, a: nat)
    requires HalfFreed(h, h2, base, k, a)
    ensures Freed(h, JoinNext(h2, k), base, a)
  {
    JoinNextSound(h2, base, k, -1);
    SameUnitsTrans(h.blocks, h2.blocks, JoinNext(h2, k).blocks);
    JoinNextHolds(h2, base, k, a, h.blocks[a]);
  }

  /** Joining blocks loses none of their units. */
  lemma JoinNextHolds(h: Heap, base: nat, k: nat, a: nat, n: nat)
    requires Linked(h, base) && BlocksOk(h, base) && k + 1 < |h.ring| && h.ring[k + 1] == a && n <= h.blocks[a]
    ensures OnRing(JoinNext(h, k), a, n)
  {
    var h' := JoinNext(h, k);
    if k >= 1 && Touch(h, k) {
      RemovedAt(h.ring, k + 1, k);
      assert h'.ring[k] == h.ring[k] && h'.ring[k] in h'.blocks;
    } else {
      assert h'.ring[k + 1] == a;
    }
  }

  // ----- malloc() -----------------------------------------------------------------------------------

  /** Gives out the whole of ring[j]; freep is left at its predecessor. */
  function Unlink(h: Heap, j: nat): Heap
    requires 1 <= j < |h.ring|
  {
    h.(ptr := h.ptr[h.ring[j - 1] := After(h.ring, j)], freep := h.ring[j - 1], ring := Removed(h.ring, j))
  }

  /** Gives out the n units of ring[j] from q on. */
  function Carve(h: Heap, j: nat, n: nat, q: nat): Heap
    requires 1 <= j < |h.ring| && h.ring[j] <= q
  {
    var x := h.ring[j];
    h.(size := h.size[x := q - x][q := n], freep := h.ring[j - 1], blocks := h.blocks[x := q - x][q := n])
  }

  /** q is where the last n units of the block x start. */
  ghost predicate Cut(b: map<nat, nat>, x: nat, n: nat, q: nat) {
    x in b && 0 < n < b[x] && q == x + b[x] - n
  }

  /** What malloc() must achieve: a new block a of n units is given out, and no unit is
      gained or lost. */
  ghost predicate Given(h: Heap, h': Heap, base: nat, a: nat, n: nat) {
    Sound(h', base) && a !in Live(h) && Live(h') == Live(h)[a := n] && SameUnits(h.blocks, h'.blocks)
  }

  lemma UnlinkApart(h: Heap, base: nat, j: nat)
    requires Linked(h, base) && BlocksOk(h, base) && ApartBut(h, -1, -1) && 1 <= j < |h.ring|
    ensures ApartBut(Unlink(h, j), -1, -1)
  {
    var h' := Unlink(h, j);
    forall i {:trigger Apart(h', i)} | 0 <= i < |h'.ring| ensures Apart(h', i) {
      RemovedAt(h.ring, j, i);
      if i + 1 < |h'.ring| { RemovedAt(h.ring, j, i + 1); }
      assert i < j ==> Apart(h, i);
      assert i >= j ==> Apart(h, i + 1);
    }
  }

  lemma UnlinkSound(h: Heap, base: nat, j: nat)
    requires Sound(h, base) && 1 <= j < |h.ring|
    ensures Given(h, Unlink(h, j), base, h.ring[j], h.blocks[h.ring[j]])
  {
    var h' := Unlink(h, j);
    RemovedMember(h.ring, j, h.ring[j - 1]);
    RemoveLinked(h, h', base, j);
    forall i | 1 <= i < |h'.ring| ensures h'.ring[i] in h'.blocks { RemovedAt(h.ring, j, i); }
    UnlinkApart(h, base, j);
    forall x: nat ensures x in h'.ring <==> x in h.ring && x != h.ring[j] { RemovedMember(h.ring, j, x); }
    assert Live(h') == Live(h)[h.ring[j] := h.blocks[h.ring[j]]];
  }

  lemma CarveBlocks(h: Heap, base: nat, j: nat, n: nat, q: nat)
    requires BlocksOk(h, base) && 1 <= j < |h.ring| && Cut(h.blocks, h.ring[j], n, q)
    ensures BlocksOk(Carve(h, j, n, q), base) && q !in h.blocks && base < q
  {
    forall a | a in h.blocks ensures a != q { }
  }

  lemma CarveUnits(h: Heap, j: nat, n: nat, q: nat)
    requires 1 <= j < |h.ring| && Cut(h.blocks, h.ring[j], n, q) && q !in h.blocks
    ensures SameUnits(h.blocks, Carve(h, j, n, q).blocks)
  {
    var b, b', x := h.blocks, Carve(h, j, n, q).blocks, h.ring[j];
    forall u: nat ensures Covered(b', u) <==> Covered(b, u) {
      if Covered(b, u) {
        var a :| a in b && a <= u < a + b[a];
        assert if a == x && u >= q then q in b' && q <= u < q + b'[q] else a in b' && a <= u < a + b'[a];
      }
      if Covered(b', u) {
        var a :| a in b' && a <= u < a + b'[a];
        assert if a == q then x <= u < x + b[x] else a in b && a <= u < a + b[a];
      }
    }
  }

  lemma CarveApart(h: Heap, base: nat, j: nat, n: nat, q: nat)
    requires Linked(h, base) && ApartBut(h, -1, -1) && 1 <= j < |h.ring| && Cut(h.blocks, h.ring[j], n, q)
    requires q !in h.ring
    ensures ApartBut(Carve(h, j, n, q), -1, -1)
  {
    var h' := Carve(h, j, n, q);
    forall i {:trigger Apart(h', i)} | 0 <= i < |h'.ring| ensures Apart(h', i) {
      assert Apart(h, i);
    }
  }

  lemma CarveLinked(h: Heap, base: nat, j: nat, n: nat, q: nat)
    requires Linked(h, base) && 1 <= j < |h.ring| && h.ring[j] <= q
    ensures Linked(Carve(h, j, n, q), base)
  {
    var h' := Carve(h, j, n, q);
    forall i | 0 <= i < |h.ring| ensures LinkAt(h', i) { assert LinkAt(h, i); }
  }

  lemma NotOnRing(h: Heap, base: nat, q: nat)
    requires Linked(h, base) && BlocksOk(h, base) && q !in h.blocks && base != q
    ensures q !in h.ring
  {
    forall i | 0 <= i < |h.ring| ensures h.ring[i] != q { if i > 0 { assert h.ring[i] in h.blocks; } }
  }

  lemma CarveLive(h: Heap, j: nat, n: nat, q: nat)
    requires 1 <= j < |h.ring| && h.ring[j] <= q && q !in h.ring
    ensures Live(Carve(h, j, n, q)) == Live(h)[q := n]
  {
  }

  lemma CarveSound(h: Heap, base: nat, j: nat, n: nat, q: nat)
    requires Sound(h, base) && 1 <= j < |h.ring| && Cut(h.blocks, h.ring[j], n, q)
    ensures Given(h, Carve(h, j, n, q), base, q, n)
  {
    CarveBlocks(h, base, j, n, q);
    NotOnRing(h, base, q);
    CarveUnits(h, j, n, q);
    CarveApart(h, base, j, n, q);
    CarveLinked(h, base, j, n, q);
    CarveLive(h, j, n, q);
  }

  // ----- morecore() -----------------------------------------------------------------------------------

  /** The first size tells when a second search is bound to succeed. */
  lemma BigEnough(h: Heap, a: nat, n: nat, want: nat) returns (i: nat)
    requires OnRing(h, a, n) && want <= n
    ensures 1 <= i < |h.ring| && h.ring[i] in h.blocks && h.blocks[h.ring[i]] >= want
  {
    i :| 1 <= i < |h.ring| && h.ring[i] in h.blocks && h.ring[i] <= a && a + n <= h.ring[i] + h.blocks[h.ring[i]];
  }

  /** n fresh units at a, as a block given out to morecore(). */
  function Extend(h: Heap, a: nat, n: nat): Heap {
    h.(size := h.size[a := n], blocks := h.blocks[a := n])
  }

  ghost predicate Fresh(h: Heap, base: nat, a: nat, n: nat) {
    base < a && n > 0 && forall b :: b in h.blocks ==> b + h.blocks[b] <= a || a + n <= b
  }

  lemma ExtendSound(h: Heap, base: nat, a: nat, n: nat)
    requires Sound(h, base) && Fresh(h, base, a, n)
    ensures a !in h.blocks && a !in h.ring && Sound(Extend(h, a, n), base) && Live(Extend(h, a, n)) == Live(h)[a := n]
  {
    var h' := Extend(h, a, n);
    NotOnRing(h, base, a);
    ExtendLive(h, a, n);
    forall i | 0 <= i < |h.ring| ensures LinkAt(h', i) { assert LinkAt(h, i); }
    forall i {:trigger Apart(h', i)} | 0 <= i < |h'.ring| ensures Apart(h', i) { assert Apart(h, i); }
  }

  lemma ExtendLive(h: Heap, a: nat, n: nat)
    requires a !in h.ring
    ensures Live(Extend(h, a, n)) == Live(h)[a := n]
  {
  }
}
