/** kernel/pipe.c: a pipe as a ring buffer with 32-bit counters that wrap around. The
    methods are the stretches of code between two points where pi->lock is given
    up, in sleep() or at the end; readers and writers may alternate in any way
    between them, so Valid() and what the methods promise hold of every
    interleaving. */
module Pipe {
  import opened Counters

  const PIPESIZE: nat := 512
  const WRAP: nat := 0x1_0000_0000

  type byte = x: int | 0 <= x < 0x100

  /** The slot of byte number k; the counter may have wrapped around. */
  function Slot(k: nat): (i: nat)
    ensures i < PIPESIZE
  {
    k % WRAP % PIPESIZE
  }

  lemma SlotModulo(k: nat)
    ensures Slot(k) == k % 512
  {
    WrappedSlot(k, PIPESIZE, 8388608);
  }

  lemma SlotsDiffer(j: nat, k: nat)
    requires j < k < j + PIPESIZE
    ensures Slot(j) != Slot(k)
  {
    SlotModulo(j);
    SlotModulo(k);
  }

  /** The test for a full pipe, on wrapped counters. */
  lemma FullTest(r: nat, w: nat)
    requires r <= w <= r + PIPESIZE
    ensures w % WRAP == (r % WRAP + PIPESIZE) % WRAP <==> w == r + PIPESIZE
    ensures w % WRAP == r % WRAP <==> w == r
  {
  }

  /** The bytes numbered r to w are in their slots. */
  ghost predicate Holds(data: seq<byte>, all: seq<byte>, r: nat) {
    && |data| == PIPESIZE && r <= |all| <= r + PIPESIZE
    && forall k {:trigger Slot(k)} :: r <= k < |all| ==> data[Slot(k)] == all[k]
  }

  /** One more byte in the next slot disturbs none that is still to be read. */
  lemma HoldsMore(data: seq<byte>, all: seq<byte>, r: nat, x: byte)
    requires Holds(data, all, r) && |all| < r + PIPESIZE
    ensures Holds(data[Slot(|all|) := x], all + [x], r)
  {
    var data', all' := data[Slot(|all|) := x], all + [x];
    forall k {:trigger Slot(k)} | r <= k < |all'| ensures data'[Slot(k)] == all'[k] {
      if k < |all| { SlotsDiffer(k, |all|); }
    }
  }

  datatype Outcome = Finished | MustSleep | Refused | Fault

  class PipeBuffer {
    const data: array<byte>
    var nread: nat
    var nwrite: nat
    var readopen: bool
    var writeopen: bool
    /** All bytes ever written to the pipe, and read from it. */
    ghost var accepted: seq<byte>
    ghost var delivered: seq<byte>

    ghost predicate Valid()
      reads this, data
    {
      && data.Length == PIPESIZE
      && nwrite == |accepted| % WRAP && nread == |delivered| % WRAP
      && Holds(data[..], accepted, |delivered|) && delivered == accepted[..|delivered|]
    }

    /** The pipe's part of pipealloc(). */
    constructor ()
      ensures Valid() && accepted == [] && delivered == [] && readopen && writeopen && fresh(data)
    {
      data := new byte[PIPESIZE];
      nread, nwrite, readopen, writeopen := 0, 0, true, true;
      accepted, delivered := [], [];
    }

    /** pi->data[pi->nwrite++ % PIPESIZE] = ch */
    method Put(ch: byte)
      requires Valid() && |accepted| < |delivered| + PIPESIZE
      modifies `nwrite, `accepted, data
      ensures Valid() && accepted == old(accepted) + [ch] && delivered == old(delivered)
    {
      HoldsMore(data[..], accepted, |delivered|, ch);
      ghost var before := data[..];
      var i := nwrite % PIPESIZE;
      assert i == Slot(|accepted|);
      data[i] := ch;
      assert data[..] == before[i := ch];
      nwrite := (nwrite + 1) % WRAP;
      accepted := accepted + [ch];
    }

    /** pipewrite() from byte i of src on, until it is done or has to sleep; killed(pr)
        is first seen at byte killedAt, and copyin() first fails at byte faultAt. */
    method Write(src: seq<byte>, start: nat, killedAt: nat, faultAt: nat) returns (i: nat, out: Outcome)
      requires Valid() && start <= |src|
      modifies `nwrite, `accepted, data
      ensures Valid() && start <= i <= |src| && accepted == old(accepted) + src[start..i] && delivered == old(delivered)
      ensures out == Finished <==> i == |src|
      ensures out == MustSleep ==> |accepted| == |delivered| + PIPESIZE && readopen && i < killedAt
      ensures out == Refused ==> !readopen || i >= killedAt
      ensures out == Fault ==> i >= faultAt
    {
      i := start;
      while i < |src|
        invariant Valid() && start <= i <= |src| && delivered == old(delivered)
        invariant accepted == old(accepted) + src[start..i]
      {
        if !readopen || i >= killedAt {
          return i, Refused;
        }
        FullTest(|delivered|, |accepted|);
        if nwrite == (nread + PIPESIZE) % WRAP {
          return i, MustSleep;
        }
        if i >= faultAt {
          return i, Fault;
        }
        Put(src[i]);
        assert src[start..i + 1] == src[start..i] + [src[i]];
        i := i + 1;
      }
      out := Finished;
    }

    /** Whether piperead() goes to sleep. */
    method MustWait() returns (wait: bool)
      requires Valid()
      ensures wait <==> delivered == accepted && writeopen
    {
      FullTest(|delivered|, |accepted|);
      wait := nread == nwrite && writeopen;
    }

    /** ch = pi->data[pi->nread % PIPESIZE]; pi->nread++ */
    method Get() returns (ch: byte)
      requires Valid() && |delivered| < |accepted|
      modifies `nread, `delivered
      ensures Valid() && accepted == old(accepted) && delivered == old(delivered) + [ch]
    {
      ghost var k := |delivered|;
      assert Slot(k) == nread % PIPESIZE;
      ch := data[nread % PIPESIZE];
      assert accepted[..k + 1] == accepted[..k] + [accepted[k]];
      nread := (nread + 1) % WRAP;
      delivered := delivered + [ch];
    }

    /** piperead() once it need not sleep; copyout() first fails at byte faultAt. */
    method Read(n: int, faultAt: nat) returns (r: int, got: seq<byte>)
      requires Valid() && !(delivered == accepted && writeopen)
      modifies `nread, `delivered
      ensures Valid() && accepted == old(accepted) && delivered == old(delivered) + got
      ensures r == |got| || (r == -1 && got == [])
      ensures n > 0 && r == 0 ==> delivered == accepted && !writeopen
      ensures r == -1 ==> faultAt == 0
      ensures 0 <= r < n ==> delivered == accepted || r >= faultAt
    {
      got := [];
      var i := 0;
      while i < n
        invariant Valid() && accepted == old(accepted) && delivered == old(delivered) + got && i == |got|
        invariant n > 0 ==> i <= n
      {
        FullTest(|delivered|, |accepted|);
        if nread == nwrite {
          break;
        }
        if i >= faultAt {
          if i == 0 {
            return -1, got;
          }
          break;
        }
        var ch := Get();
        got := got + [ch];
        i := i + 1;
      }
      r := i;
    }

    /** pipeclose(): true if both ends are now closed and the pipe is freed. */
    method Close(writable: bool) returns (freed: bool)
      requires Valid()
      modifies `readopen, `writeopen
      ensures Valid()
      ensures (if writable then !writeopen && readopen == old(readopen) else !readopen && writeopen == old(writeopen))
      ensures freed <==> !readopen && !writeopen
    {
      if writable {
        writeopen := false;
      } else {
        readopen := false;
      }
      freed := !readopen && !writeopen;
    }
  }
}
