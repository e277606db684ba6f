/** The interrupt nesting of kernel/spinlock.c: push_off() and pop_off(), which every
    acquire() and release() go through, on one CPU. */
module SpinLock {

  /** `intr` is the interrupt enable flag of the hardware. */
  datatype Cpu = Cpu(noff: int, intena: bool, intr: bool)

  datatype Result = Ok(cpu: Cpu) | Panic

  datatype Op = PushOff | PopOff

  function Push(c: Cpu): Cpu {
    Cpu(c.noff + 1, if c.noff == 0 then c.intr else c.intena, false)
  }

  function Pop(c: Cpu): Result {
    if c.intr || c.noff < 1 then Panic
    else if c.noff - 1 == 0 && c.intena then Ok(Cpu(0, c.intena, true))
    else Ok(Cpu(c.noff - 1, c.intena, c.intr))
  }

  function Exec(c: Cpu, ops: seq<Op>): Result
    decreases |ops|
  {
    if ops == [] then Ok(c)
    else
      var last, r := ops[|ops| - 1], Exec(c, ops[..|ops| - 1]);
      if r.Panic? then Panic else if last.PushOff? then Ok(Push(r.cpu)) else Pop(r.cpu)
  }

  /** How many push_off() calls are still to be undone. */
  function Depth(ops: seq<Op>): int {
    if ops == [] then 0
    else Depth(ops[..|ops| - 1]) + if ops[|ops| - 1].PushOff? then 1 else -1
  }

  /** Every pop_off() undoes an earlier push_off(). */
  ghost predicate Matched(ops: seq<Op>) {
    forall i :: 0 <= i <= |ops| ==> Depth(ops[..i]) >= 0
  }

  /** Matched calls never panic; interrupts are off while any is outstanding, and as
      they were at the start once all are undone. */
  lemma {:induction false} MatchedCalls(c: Cpu, ops: seq<Op>)
    requires c.noff == 0 && Matched(ops)
    ensures Exec(c, ops).Ok? && Exec(c, ops).cpu.noff == Depth(ops) >= 0
    ensures Depth(ops) > 0 ==> !Exec(c, ops).cpu.intr && Exec(c, ops).cpu.intena == c.intr
    ensures Depth(ops) == 0 ==> Exec(c, ops).cpu.intr == c.intr
  {
    assert ops[..|ops|] == ops;
    if ops != [] {
      var rest := ops[..|ops| - 1];
      forall i | 0 <= i <= |rest| ensures Depth(rest[..i]) >= 0 { assert rest[..i] == ops[..i]; }
      MatchedCalls(c, rest);
    }
  }

  /** And calls panic exactly if they are not matched. */
  lemma {:induction false} PanicIffUnmatched(c: Cpu, ops: seq<Op>)
    requires c.noff == 0
    ensures Exec(c, ops).Ok? <==> Matched(ops)
    decreases |ops|, 1
  {
    if Matched(ops) {
      MatchedCalls(c, ops);
    } else {
      var i :| 0 <= i <= |ops| && Depth(ops[..i]) < 0;
      UnmatchedPanics(c, ops, i);
    }
  }

  lemma {:induction false} UnmatchedPanics(c: Cpu, ops: seq<Op>, i: nat)
    requires c.noff == 0 && i <= |ops| && Depth(ops[..i]) < 0
    ensures Exec(c, ops).Panic?
    decreases |ops|, 0
  {
    var rest := ops[..|ops| - 1];
    if i < |ops| {
      assert rest[..i] == ops[..i];
      UnmatchedPanics(c, rest, i);
    } else {
      assert ops[..i] == ops;
      PanicIffUnmatched(c, rest);
      if Matched(rest) {
        MatchedCalls(c, rest);
        assert rest[..|rest|] == rest;
      }
    }
  }
}
