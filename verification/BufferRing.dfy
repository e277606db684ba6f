/** The buffer cache of kernel/bio.c as a data structure: a fixed pool of buffers
    on a doubly linked ring through a list head, most recently released first. */
module BufferRing {

  /** The neighbours of buffer order[i] on a ring whose head is buffer number n. */
  function After(order: seq<nat>, n: nat, i: int): nat
    requires -1 <= i < |order|
  {
    if i + 1 < |order| then order[i + 1] else n
  }

  function Before(order: seq<nat>, n: nat, i: int): nat
    requires 0 <= i <= |order|
  {
    if i > 0 then order[i - 1] else n
  }

  ghost predicate Distinct(order: seq<nat>) {
    forall i, j :: 0 <= i < j < |order| ==> order[i] != order[j]
  }

  /** next and prev link the head n and the buffers of `order`, in that order, in
      one ring. */
  ghost predicate Ring(next: seq<nat>, prev: seq<nat>, order: seq<nat>, n: nat) {
    && |next| == |prev| == n + 1 && Distinct(order)
    && (forall i :: 0 <= i < |order| ==> order[i] < n)
    && next[n] == After(order, n, -1) && prev[n] == Before(order, n, |order|)
    && (forall i {:trigger After(order, n, i)} :: 0 <= i < |order| ==> next[order[i]] == After(order, n, i))
    && (forall i {:trigger Before(order, n, i)} :: 0 <= i < |order| ==> prev[order[i]] == Before(order, n, i))
  }

  /** Unlinking one buffer and linking it in at the head. */
  function Unlinked(order: seq<nat>, k: nat): seq<nat>
    requires k < |order|
  {
    order[..k] + order[k + 1..]
  }

  lemma UnlinkedAt(order: seq<nat>, k: nat, i: nat)
    requires k < |order| && i < |order| - 1
    ensures Unlinked(order, k)[i] == order[if i < k then i else i + 1]
  {
  }

  lemma UnlinkNext(next: seq<nat>, prev: seq<nat>, order: seq<nat>, n: nat, k: nat, i: nat)
    requires Ring(next, prev, order, n) && k < |order| && i < |order| - 1
    ensures Before(order, n, k) <= n
    ensures next[Before(order, n, k) := After(order, n, k)][Unlinked(order, k)[i]] == After(Unlinked(order, k), n, i)
  {
    var j := if i < k then i else i + 1;
    UnlinkedAt(order, k, i);
    if i + 1 < |order| - 1 { UnlinkedAt(order, k, i + 1); }
    assert next[order[j]] == After(order, n, j);
  }

  lemma UnlinkPrev(next: seq<nat>, prev: seq<nat>, order: seq<nat>, n: nat, k: nat, i: nat)
    requires Ring(next, prev, order, n) && k < |order| && i < |order| - 1
    ensures After(order, n, k) <= n
    ensures prev[After(order, n, k) := Before(order, n, k)][Unlinked(order, k)[i]] == Before(Unlinked(order, k), n, i)
  {
    var j := if i < k then i else i + 1;
    UnlinkedAt(order, k, i);
    if i > 0 { UnlinkedAt(order, k, i - 1); }
    assert prev[order[j]] == Before(order, n, j);
  }

  lemma UnlinkedDistinct(order: seq<nat>, n: nat, k: nat)
    requires Distinct(order) && k < |order| && forall i :: 0 <= i < |order| ==> order[i] < n
    ensures Distinct(Unlinked(order, k)) && order[k] !in Unlinked(order, k)
    ensures forall i :: 0 <= i < |Unlinked(order, k)| ==> Unlinked(order, k)[i] < n
  {
  }

  lemma UnlinkHead(next: seq<nat>, prev: seq<nat>, order: seq<nat>, n: nat, k: nat)
    requires Ring(next, prev, order, n) && k < |order|
    ensures next[order[k]] == After(order, n, k) <= n && prev[order[k]] == Before(order, n, k) <= n
    ensures next[Before(order, n, k) := After(order, n, k)][n] == After(Unlinked(order, k), n, -1)
    ensures prev[After(order, n, k) := Before(order, n, k)][n] == Before(Unlinked(order, k), n, |Unlinked(order, k)|)
  {
  }

  /** Unlinking a buffer leaves a ring of the others. */
  lemma UnlinkRing(next: seq<nat>, prev: seq<nat>, order: seq<nat>, n: nat, k: nat)
    requires Ring(next, prev, order, n) && k < |order|
    ensures next[order[k]] == After(order, n, k) <= n && prev[order[k]] == Before(order, n, k) <= n
    ensures Ring(next[Before(order, n, k) := After(order, n, k)], prev[After(order, n, k) := Before(order, n, k)],
        Unlinked(order, k), n)
  {
    UnlinkedDistinct(order, n, k);
    UnlinkHead(next, prev, order, n, k);
    var order' := Unlinked(order, k);
    forall i {:trigger After(order', n, i)} | 0 <= i < |order'|
      ensures next[Before(order, n, k) := After(order, n, k)][order'[i]] == After(order', n, i)
    {
      UnlinkNext(next, prev, order, n, k, i);
    }
    forall i {:trigger Before(order', n, i)} | 0 <= i < |order'|
      ensures prev[After(order, n, k) := Before(order, n, k)][order'[i]] == Before(order', n, i)
    {
      UnlinkPrev(next, prev, order, n, k, i);
    }
  }

  /** Linking a buffer in at the head. */
  lemma PushRing(next: seq<nat>, prev: seq<nat>, order: seq<nat>, n: nat, b: nat)
    requires Ring(next, prev, order, n) && b < n && b !in order
    ensures next[n] <= n
    ensures Ring(next[b := next[n]][n := b], prev[b := n][next[n] := b], [b] + order, n)
  {
    var order' := [b] + order;
    var next', prev' := next[b := next[n]][n := b], prev[b := n][next[n] := b];
    forall i | 0 <= i < |order'|
      ensures order'[i] < n && next'[order'[i]] == After(order', n, i) && prev'[order'[i]] == Before(order', n, i)
    {
      if i > 0 {
        assert order'[i] == order[i - 1];
        assert next[order[i - 1]] == After(order, n, i - 1) && prev[order[i - 1]] == Before(order, n, i - 1);
      }
    }
  }

  /** Latest release first. */
  ghost predicate Sorted(order: seq<nat>, stamp: seq<nat>) {
    && (forall i :: 0 <= i < |order| ==> order[i] < |stamp|)
    && (forall i, j :: 0 <= i < j < |order| ==> stamp[order[i]] > stamp[order[j]])
  }

  ghost predicate Covers(order: seq<nat>, n: nat) {
    forall b :: 0 <= b < n ==> b in order
  }

  /** A block of a real device is in at most one buffer. */
  ghost predicate KeysUnique(dev: seq<nat>, blockno: seq<nat>) {
    |dev| == |blockno| && forall b, c :: 0 <= b < c < |dev| && dev[b] == dev[c] != 0 ==> blockno[b] != blockno[c]
  }

  predicate KeyAt(dev: seq<nat>, blockno: seq<nat>, b: nat, d: nat, bn: nat)
    requires b < |dev| == |blockno|
  {
    dev[b] == d && blockno[b] == bn
  }

  /** A buffer moves to the front of the ring, released last of all. */
  lemma MoveFirst(order: seq<nat>, stamp: seq<nat>, n: nat, k: nat, clock: nat)
    requires Distinct(order) && Sorted(order, stamp) && Covers(order, n) && k < |order| && |stamp| == n
    requires forall b :: 0 <= b < n ==> stamp[b] < clock
    ensures Sorted([order[k]] + Unlinked(order, k), stamp[order[k] := clock])
    ensures Covers([order[k]] + Unlinked(order, k), n)
  {
    var order', stamp' := [order[k]] + Unlinked(order, k), stamp[order[k] := clock];
    forall i, j | 0 <= i < j < |order'| ensures stamp'[order'[i]] > stamp'[order'[j]] {
      UnlinkedAt(order, k, j - 1);
      if i > 0 { UnlinkedAt(order, k, i - 1); }
    }
    forall b | 0 <= b < n ensures b in order' {
      assert b in order;
      var i :| 0 <= i < |order| && order[i] == b;
      if i < k { UnlinkedAt(order, k, i); assert order'[i + 1] == b; }
      if i > k { UnlinkedAt(order, k, i - 1); assert order'[i] == b; }
      if i == k { assert order'[0] == b; }
    }
  }

  /** The order in which binit() leaves the first b buffers. */
  ghost predicate Descending(order: seq<nat>, b: nat) {
    |order| == b && forall i :: 0 <= i < b ==> order[i] == b - 1 - i
  }

  lemma DescendingSorted(order: seq<nat>, n: nat, stamp: seq<nat>)
    requires Descending(order, n) && |stamp| == n && forall i :: 0 <= i < n ==> stamp[i] == i
    ensures Sorted(order, stamp) && Covers(order, n)
  {
    forall b | 0 <= b < n ensures b in order { assert order[n - 1 - b] == b; }
  }

  lemma NewKey(dev: seq<nat>, blockno: seq<nat>, b: nat, d: nat, bn: nat)
    requires KeysUnique(dev, blockno) && b < |dev|
    requires forall c :: 0 <= c < |dev| ==> !KeyAt(dev, blockno, c, d, bn)
    ensures KeysUnique(dev[b := d], blockno[b := bn])
  {
    var dev', blockno' := dev[b := d], blockno[b := bn];
    forall x, y | 0 <= x < y < |dev'| && dev'[x] == dev'[y] != 0 ensures blockno'[x] != blockno'[y] {
      assert !KeyAt(dev, blockno, x, d, bn) && !KeyAt(dev, blockno, y, d, bn);
    }
  }

  /** The pool: per buffer its neighbours, key, reference count and valid flag. The
      ring order and the time of each buffer's latest drop to zero references are
      history variables. */
  class BufferPool {
    const n: nat
    var next: seq<nat>
    var prev: seq<nat>
    var dev: seq<nat>
    var blockno: seq<nat>
    var refcnt: seq<nat>
    var valid: seq<bool>
    ghost var order: seq<nat>
    ghost var stamp: seq<nat>
    ghost var clock: nat

    ghost predicate Valid()
      reads this
    {
      && Ring(next, prev, order, n) && Covers(order, n)
      && |dev| == |blockno| == |refcnt| == |valid| == |stamp| == n
      && Sorted(order, stamp) && (forall b :: 0 <= b < n ==> stamp[b] < clock)
      && KeysUnique(dev, blockno)
    }

    /** Of the buffers with a zero count, b was released longest ago. */
    ghost predicate LeastRecent(counts: seq<nat>, b: nat)
      requires b < |stamp| == |counts|
      reads this
    {
      forall c :: 0 <= c < |counts| && c != b && counts[c] == 0 ==> stamp[b] < stamp[c]
    }

    /** binit() */
    constructor (size: nat)
      ensures Valid() && n == size
      ensures forall b :: 0 <= b < n ==> refcnt[b] == 0 && !valid[b]
    {
      n := size;
      next, prev := seq(size + 1, _ => size), seq(size + 1, _ => size);
      dev, blockno, refcnt := seq(size, _ => 0), seq(size, _ => 0), seq(size, _ => 0);
      valid := seq(size, _ => false);
      order, stamp, clock := [], seq(size, i => i), size;
      new;
      var b := 0;
      while b < n
        invariant 0 <= b <= n && Ring(next, prev, order, n) && Descending(order, b)
        modifies `next, `prev, `order
      {
        PushRing(next, prev, order, n, b);
        PushFront(b);
        order := [b] + order;
        b := b + 1;
      }
      DescendingSorted(order, n, stamp);
    }

    /** The first loop of bget(): the buffer that holds the block, n if none does. */
    method FindCached(d: nat, bn: nat) returns (b: nat)
      requires Valid()
      ensures b <= n
      ensures b < n ==> KeyAt(dev, blockno, b, d, bn)
      ensures b == n ==> forall c :: 0 <= c < n ==> !KeyAt(dev, blockno, c, d, bn)
    {
      ghost var i := 0;
      b := next[n];
      while b != n
        invariant 0 <= i <= |order| && b == After(order, n, i - 1)
        invariant forall j :: 0 <= j < i ==> !KeyAt(dev, blockno, order[j], d, bn)
        decreases |order| - i
      {
        if dev[b] == d && blockno[b] == bn {
          return;
        }
        assert After(order, n, i) == next[b];
        b := next[b];
        i := i + 1;
      }
      forall c | 0 <= c < n ensures !KeyAt(dev, blockno, c, d, bn) {
        assert c in order;
      }
    }

    /** The second loop of bget(): the unused buffer that was released longest ago,
        n if all are in use. */
    method FindUnused() returns (b: nat)
      requires Valid()
      ensures b <= n
      ensures b < n ==> refcnt[b] == 0 && LeastRecent(refcnt, b)
      ensures b == n ==> forall c :: 0 <= c < n ==> refcnt[c] > 0
    {
      ghost var i := |order|;
      b := prev[n];
      while b != n
        invariant 0 <= i <= |order| && b == Before(order, n, i)
        invariant forall j :: i <= j < |order| ==> refcnt[order[j]] > 0
        decreases i
      {
        if refcnt[b] == 0 {
          forall c | 0 <= c < n && c != b && refcnt[c] == 0 ensures stamp[b] < stamp[c] {
            assert c in order;
          }
          return;
        }
        assert Before(order, n, i - 1) == prev[b];
        b := prev[b];
        i := i - 1;
      }
      forall c | 0 <= c < n ensures refcnt[c] > 0 {
        assert c in order;
      }
    }

    /** bget(), without the buffer's own lock; n where the source panics. */
    method Bget(d: nat, bn: nat) returns (b: nat, hit: bool)
      requires Valid()
      modifies `dev, `blockno, `refcnt, `valid
      ensures Valid() && b <= n && (b < n ==> KeyAt(dev, blockno, b, d, bn))
      ensures hit ==> b < n && KeyAt(old(dev), old(blockno), b, d, bn) && refcnt == old(refcnt)[b := old(refcnt)[b] + 1]
      ensures hit ==> dev == old(dev) && blockno == old(blockno) && valid == old(valid)
      ensures !hit ==> forall c :: 0 <= c < n ==> !KeyAt(old(dev), old(blockno), c, d, bn)
      ensures !hit && b < n ==> old(refcnt)[b] == 0 && LeastRecent(old(refcnt), b)
      ensures !hit && b < n ==> refcnt == old(refcnt)[b := 1] && valid == old(valid)[b := false]
      ensures !hit && b < n ==> dev == old(dev)[b := d] && blockno == old(blockno)[b := bn]
      ensures b == n ==> (forall c :: 0 <= c < n ==> old(refcnt)[c] > 0) && refcnt == old(refcnt)
      ensures b == n ==> dev == old(dev) && blockno == old(blockno) && valid == old(valid)
    {
      b := FindCached(d, bn);
      hit := b < n;
      if hit {
        refcnt := refcnt[b := refcnt[b] + 1];
        return;
      }
      b := FindUnused();
      if b < n {
        NewKey(dev, blockno, b, d, bn);
        dev := dev[b := d];
        blockno := blockno[b := bn];
        valid := valid[b := false];
        refcnt := refcnt[b := 1];
      }
    }

    /** brelse(), without the buffer's own lock. */
    method Brelse(b: nat)
      requires Valid() && b < n && refcnt[b] > 0
      modifies `refcnt, `next, `prev, `order, `stamp, `clock
      ensures Valid() && refcnt == old(refcnt)[b := old(refcnt)[b] - 1]
      ensures refcnt[b] > 0 ==> order == old(order) && stamp == old(stamp)
      ensures refcnt[b] == 0 ==> forall c :: 0 <= c < n && c != b ==> stamp[b] > stamp[c] == old(stamp)[c]
    {
      refcnt := refcnt[b := refcnt[b] - 1];
      if refcnt[b] == 0 {
        assert b in order;
        ghost var k :| 0 <= k < |order| && order[k] == b;
        MoveFirst(order, stamp, n, k, clock);
        Touch(b, k);
        stamp, clock := stamp[b := clock], clock + 1;
      }
    }

    /** Moves a buffer to the front of the ring. */
    method Touch(b: nat, ghost k: nat)
      requires Ring(next, prev, order, n) && k < |order| && order[k] == b
      modifies `next, `prev, `order
      ensures order == [b] + Unlinked(old(order), k) && Ring(next, prev, order, n)
    {
      UnlinkRing(next, prev, order, n, k);
      UnlinkedDistinct(order, n, k);
      Unlink(b, k);
      PushRing(next, prev, Unlinked(order, k), n, b);
      PushFront(b);
      order := [b] + Unlinked(order, k);
    }

    /** b->next->prev = b->prev; b->prev->next = b->next */
    method Unlink(b: nat, ghost k: nat)
      requires Ring(next, prev, order, n) && k < |order| && order[k] == b
      modifies `next, `prev
      ensures next == old(next)[Before(order, n, k) := After(order, n, k)]
      ensures prev == old(prev)[After(order, n, k) := Before(order, n, k)]
    {
      UnlinkHead(next, prev, order, n, k);
      var a, z := prev[b], next[b];
      prev := prev[z := a];
      next := next[a := z];
    }

    /** Link b in after the head. */
    method PushFront(b: nat)
      requires |next| == |prev| == n + 1 && b < n && next[n] <= n
      modifies `next, `prev
      ensures next == old(next)[b := old(next)[n]][n := b] && prev == old(prev)[b := n][old(next)[n] := b]
    {
      next := next[b := next[n]];
      prev := prev[b := n];
      prev := prev[next[n] := b];
      next := next[n := b];
    }

    /** bpin() */
    method Bpin(b: nat)
      requires Valid() && b < n
      modifies `refcnt
      ensures Valid() && refcnt == old(refcnt)[b := old(refcnt)[b] + 1]
    {
      refcnt := refcnt[b := refcnt[b] + 1];
    }

    /** bunpin() */
    method Bunpin(b: nat)
      requires Valid() && b < n && refcnt[b] > 0
      modifies `refcnt
      ensures Valid() && refcnt == old(refcnt)[b := old(refcnt)[b] - 1]
    {
      refcnt := refcnt[b := refcnt[b] - 1];
    }
  }
}
