/** A ring of NUM entries with 16-bit indices that only ever grow, as in the split
    virtqueues of section 2.6 of the virtio 1.1 specification: the reader's and the
    writer's index wrap at 2^16, and select an entry modulo NUM. */
module VirtioRing {
  import opened Counters
  import opened Sets

  const NUM: nat := 8
  const WRAP: nat := 0x1_0000

  /** The entries between the reader's index `head` and the writer's index `tail`
      are q, in order. */
  ghost predicate Queue(ring: seq<nat>, head: nat, tail: nat, q: seq<nat>) {
    && |ring| == NUM && |q| <= NUM && head < WRAP && tail == Ahead(head, |q|)
    && forall i {:trigger Slot(head, i)} :: 0 <= i < |q| ==> ring[Slot(head, i)] == q[i]
  }

  function Ahead(head: nat, n: nat): nat {
    (head + n) % WRAP
  }

  /** An index after one more entry. */
  function Inc(x: nat): nat {
    (x + 1) % WRAP
  }

  function Slot(head: nat, i: nat): (k: nat)
    ensures k < NUM
  {
    (head + i) % WRAP % NUM
  }

  /** The entry that an index selects. */
  function Here(x: nat): (k: nat)
    ensures k < NUM
  {
    x % NUM
  }

  /** The indices differ exactly if there is something to read. */
  lemma QueueEmpty(ring: seq<nat>, head: nat, tail: nat, q: seq<nat>)
    requires Queue(ring, head, tail, q)
    ensures head == tail <==> q == []
  {
  }

  /** Distinct positions less than NUM apart are distinct entries, also across the
      wrap-around of the indices. */
  lemma SlotsDiffer(head: nat, i: nat, j: nat)
    requires head < WRAP && i < j < NUM
    ensures Slot(head, i) != Slot(head, j)
  {
    SlotModulo(head, i);
    SlotModulo(head, j);
  }

  lemma SlotModulo(head: nat, i: nat)
    ensures Slot(head, i) == (head + i) % 8
  {
    WrappedSlot(head + i, NUM, 8192);
  }

  lemma SlotOfTail(ring: seq<nat>, head: nat, tail: nat, q: seq<nat>)
    requires Queue(ring, head, tail, q)
    ensures Here(tail) == Slot(head, |q|) && Inc(tail) == Ahead(head, |q| + 1)
  {
  }

  /** Writing the entry at the writer's index overwrites nothing unread. */
  lemma QueuePush(ring: seq<nat>, head: nat, tail: nat, q: seq<nat>, x: nat)
    requires Queue(ring, head, tail, q) && |q| < NUM
    ensures Queue(ring[Here(tail) := x], head, Inc(tail), q + [x])
  {
    SlotOfTail(ring, head, tail, q);
    var ring', q' := ring[Here(tail) := x], q + [x];
    forall i {:trigger Slot(head, i)} | 0 <= i < |q'| ensures ring'[Slot(head, i)] == q'[i] {
      if i < |q| { SlotsDiffer(head, i, |q|); }
    }
  }

  lemma SlotNext(head: nat, i: nat)
    requires head < WRAP
    ensures Slot(Inc(head), i) == Slot(head, i + 1)
  {
    SlotModulo(Inc(head), i);
    SlotModulo(head, i + 1);
    if head + 1 == WRAP {
      assert Inc(head) == 0;
      Multiples(8, 8192, i);
    } else {
      assert Inc(head) == head + 1;
    }
  }

  lemma QueuePop(ring: seq<nat>, head: nat, tail: nat, q: seq<nat>)
    requires Queue(ring, head, tail, q) && q != []
    ensures ring[Here(head)] == q[0] && Queue(ring, Inc(head), tail, q[1..])
  {
    assert Slot(head, 0) == Here(head);
    assert Ahead(Inc(head), |q| - 1) == Ahead(head, |q|);
    forall i {:trigger Slot(Inc(head), i)} | 0 <= i < |q[1..]| ensures ring[Slot(Inc(head), i)] == q[1..][i] {
      SlotNext(head, i);
    }
  }

  ghost predicate Distinct(q: seq<nat>) {
    forall i, j :: 0 <= i < j < |q| ==> q[i] != q[j]
  }

  function Elems(q: seq<nat>): set<nat> {
    set x | x in q
  }

  lemma {:induction false} DistinctCount(q: seq<nat>)
    requires Distinct(q)
    ensures |Elems(q)| == |q|
  {
    if q != [] {
      var rest, last := q[..|q| - 1], q[|q| - 1];
      DistinctCount(rest);
      assert q == rest + [last];
      assert Elems(q) == Elems(rest) + {last};
      assert last !in rest;
    }
  }

  /** With one descriptor not among them, there are fewer than NUM. */
  lemma RoomForOne(q: seq<nat>, x: nat)
    requires Distinct(q) && x < NUM && x !in q && forall y :: y in q ==> y < NUM
    ensures |q| < NUM
  {
    DistinctCount(q);
    var all: set<nat> := {0, 1, 2, 3, 4, 5, 6, 7};
    assert |all - {x}| == 7;
    SubsetCard(Elems(q), all - {x});
  }
}
