/** The memory of processes over their lives: created, grown, shrunk, faulted in, forked
    and freed in any order, and at the end not a page is lost. */
module VmLife {
  import opened PageTable
  import opened VmState
  import opened VmEffects
  import opened VmTeardown
  import opened VmCode

  ghost predicate OfAny(u: Use, roots: set<nat>) {
    u.In? && u.place.r in roots
  }

  /** Since s0 the address spaces in `roots` have been added: what they do not use has the
      use it had, and memory that was in use has its contents. */
  ghost predicate Family(s0: Vm, s: Vm, roots: set<nat>) {
    && roots !! s0.pts.Keys && s.pts.Keys == s0.pts.Keys + roots
    && (forall r :: r in s0.pts ==> s.pts[r] == s0.pts[r])
    && s.owner.Keys == s0.owner.Keys && s0.owner.Keys <= s0.mem.Keys && s.owner.Keys <= s.mem.Keys
    && (forall p :: p in s0.owner ==> s0.owner[p] == if OfAny(s.owner[p], roots) then Free else s.owner[p])
    && (forall p :: p in s0.owner && IsData(s0.owner[p]) ==> s.mem[p] == s0.mem[p])
  }

  lemma FamilyNone(s: Vm)
    requires Sound(s)
    ensures Family(s, s, {})
  {
  }

  lemma FamilyEnd(s0: Vm, s: Vm)
    requires Family(s0, s, {})
    ensures NothingLost(s0, s)
  {
    assert s.pts == s0.pts;
    assert s.owner == s0.owner;
  }

  lemma OpenedSpawned(s0: Vm, s1: Vm, q: nat)
    requires Opened(s0, s1, q)
    ensures Spawned(s0, s1, q)
  {
  }

  /** A new address space takes free pages only. */
  lemma SpawnedUses(s0: Vm, s1: Vm, q: nat, p: nat)
    requires OwnInv(s0.pts, s0.owner) && OwnInv(s1.pts, s1.owner) && Spawned(s0, s1, q) && p in s0.owner
    ensures s0.owner[p] == if OfSpace(s1.owner[p], q) then Free else s1.owner[p]
  {
    if s0.owner[p].In? {
      assert PlaceAt(s0.pts, s0.owner[p].place) == p;
      assert PlaceAt(s1.pts, s0.owner[p].place) == p;
    }
    if s1.owner[p].In? && s1.owner[p].place.r != q {
      assert PlaceAt(s1.pts, s1.owner[p].place) == p;
      assert PlaceAt(s0.pts, s1.owner[p].place) == p;
    }
  }

  /** What SpawnedUses says, of every page. */
  ghost predicate TookFree(o: map<nat, Use>, o': map<nat, Use>, q: nat) {
    forall p :: p in o ==> p in o' && o[p] == if OfSpace(o'[p], q) then Free else o'[p]
  }

  lemma SpawnedTook(s: Vm, s': Vm, q: nat)
    requires OwnInv(s.pts, s.owner) && OwnInv(s'.pts, s'.owner) && Spawned(s, s', q)
    ensures TookFree(s.owner, s'.owner, q)
  {
    forall p | p in s.owner ensures s.owner[p] == if OfSpace(s'.owner[p], q) then Free else s'.owner[p] {
      SpawnedUses(s, s', q, p);
    }
  }

  lemma FamilySpawned(s0: Vm, s: Vm, s': Vm, q: nat, roots: set<nat>, more: set<nat>)
    requires Family(s0, s, roots) && Spawned(s, s', q) && TookFree(s.owner, s'.owner, q) && more == roots + {q}
    ensures Family(s0, s', more)
  {
  }

  predicate Mine(u: Use, r: nat) {
    u == Free || (u.In? && u.place.r == r)
  }

  /** A process takes free pages and gives pages back, and that is all. */
  lemma ResizedUses(s0: Vm, s1: Vm, r: nat, p: nat)
    requires OwnInv(s0.pts, s0.owner) && OwnInv(s1.pts, s1.owner) && Resized(s0, s1, r) && p in s0.owner
    ensures s1.owner[p] == s0.owner[p] || (Mine(s0.owner[p], r) && Mine(s1.owner[p], r))
  {
    if s0.owner[p].In? && s0.owner[p].place.r != r {
      assert PlaceAt(s0.pts, s0.owner[p].place) == p;
      assert PlaceAt(s1.pts, s0.owner[p].place) == p;
    }
    if s1.owner[p].In? && s1.owner[p].place.r != r {
      assert PlaceAt(s1.pts, s1.owner[p].place) == p;
      assert PlaceAt(s0.pts, s1.owner[p].place) == p;
    }
  }

  ghost predicate Exchanged(o: map<nat, Use>, o': map<nat, Use>, r: nat) {
    forall p :: p in o ==> p in o' && (o'[p] == o[p] || (Mine(o[p], r) && Mine(o'[p], r)))
  }

  lemma ResizedExchanged(s: Vm, s': Vm, r: nat)
    requires OwnInv(s.pts, s.owner) && OwnInv(s'.pts, s'.owner) && Resized(s, s', r)
    ensures Exchanged(s.owner, s'.owner, r)
  {
    forall p | p in s.owner ensures s'.owner[p] == s.owner[p] || (Mine(s.owner[p], r) && Mine(s'.owner[p], r)) {
      ResizedUses(s, s', r, p);
    }
  }

  lemma FamilyResized(s0: Vm, s: Vm, s': Vm, r: nat, roots: set<nat>)
    requires Family(s0, s, roots) && Resized(s, s', r) && r in roots && Exchanged(s.owner, s'.owner, r)
    ensures Family(s0, s', roots)
  {
    forall p | p in s0.owner && IsData(s0.owner[p]) ensures s'.mem[p] == s0.mem[p] {
      assert s.owner[p] == s0.owner[p] && !InRange(s.owner[p], r, 0, TRAPFRAME);
    }
  }

  lemma FamilyGone(s0: Vm, s: Vm, s': Vm, r: nat, roots: set<nat>)
    requires Family(s0, s, roots) && Gone(s, s', r) && r in roots
    ensures Family(s0, s', roots - {r})
  {
    forall p | p in s0.owner
      ensures s0.owner[p] == if OfAny(s'.owner[p], roots - {r}) then Free else s'.owner[p]
      ensures IsData(s0.owner[p]) ==> s'.mem[p] == s0.mem[p]
    {
    }
  }

  // ----- Lives ------------------------------------------------------------------------------

  /** What can happen to the memory of a process, named by its page table. */
  datatype Act =
    | Create
    | Resize(r: nat, n: int, eager: bool)
    | Fault(r: nat, va: nat)
    | Fork(r: nat)
    | Exit(r: nat)

  ghost predicate Spaces(s: Vm, procs: map<nat, nat>) {
    forall r :: r in procs ==> ProcessSpace(s, r, procs[r])
  }

  /** `procs` are the processes made since s0, with their sizes. */
  ghost predicate Alive(s0: Vm, s: Vm, procs: map<nat, nat>) {
    Family(s0, s, procs.Keys) && Spaces(s, procs)
  }

  /** A process space depends on its tables only. */
  lemma SpacesKept(s: Vm, s': Vm, procs: map<nat, nat>, procs': map<nat, nat>, r: nat)
    requires Spaces(s, procs) && (forall q :: q in procs' && q != r ==> q in procs && procs[q] == procs'[q])
    requires forall q :: q in s.pts && q in procs' && q != r ==> q in s'.pts && s'.pts[q] == s.pts[q]
    requires r in procs' ==> ProcessSpace(s', r, procs'[r])
    ensures Spaces(s', procs')
  {
  }

  lemma AliveSpawned(s0: Vm, s: Vm, s': Vm, q: nat, sz: nat, procs: map<nat, nat>)
    requires Alive(s0, s, procs) && Spawned(s, s', q) && TookFree(s.owner, s'.owner, q) && ProcessSpace(s', q, sz)
    ensures Alive(s0, s', procs[q := sz])
  {
    FamilySpawned(s0, s, s', q, procs.Keys, procs[q := sz].Keys);
    SpacesKept(s, s', procs, procs[q := sz], q);
  }

  lemma AliveResized(s0: Vm, s: Vm, s': Vm, r: nat, sz: nat, procs: map<nat, nat>)
    requires Alive(s0, s, procs) && r in procs && Resized(s, s', r) && Exchanged(s.owner, s'.owner, r)
    requires ProcessSpace(s', r, sz)
    ensures Alive(s0, s', procs[r := sz])
  {
    FamilyResized(s0, s, s', r, procs.Keys);
    assert procs[r := sz].Keys == procs.Keys;
    SpacesKept(s, s', procs, procs[r := sz], r);
  }

  lemma AliveGone(s0: Vm, s: Vm, s': Vm, r: nat, procs: map<nat, nat>)
    requires Alive(s0, s, procs) && r in procs && Gone(s, s', r)
    ensures Alive(s0, s', procs - {r})
  {
    FamilyGone(s0, s, s', r, procs.Keys);
    assert (procs - {r}).Keys == procs.Keys - {r};
    SpacesKept(s, s', procs, procs - {r}, r);
  }

  lemma AliveSame(s0: Vm, s: Vm, s': Vm, procs: map<nat, nat>)
    requires Alive(s0, s, procs) && NothingLost(s, s')
    ensures Alive(s0, s', procs)
  {
    assert forall p :: p in s0.owner && IsData(s0.owner[p]) ==> s.owner[p] == s0.owner[p];
  }

  method DoCreate(vm: VM, procs: map<nat, nat>, trampoline: nat, trapframe: nat, ghost s0: Vm)
    returns (procs': map<nat, nat>)
    requires vm.Valid() && Alive(s0, vm.S(), procs) && PteValid(trampoline) && PteValid(trapframe)
    modifies vm
    ensures vm.Valid() && Alive(s0, vm.S(), procs')
  {
    var q := vm.ProcPagetable(trampoline, trapframe);
    if q == 0 {
      AliveSame(s0, old(vm.S()), vm.S(), procs);
      return procs;
    }
    OpenedSpawned(old(vm.S()), vm.S(), q);
    SpawnedTook(old(vm.S()), vm.S(), q);
    AliveSpawned(s0, old(vm.S()), vm.S(), q, 0, procs);
    return procs[q := 0];
  }

  method DoResize(vm: VM, r: nat, n: int, eager: bool, procs: map<nat, nat>, ghost s0: Vm)
    returns (procs': map<nat, nat>)
    requires vm.Valid() && Alive(s0, vm.S(), procs) && r in procs && -0x8000_0000 <= n < 0x8000_0000
    modifies vm
    ensures vm.Valid() && Alive(s0, vm.S(), procs')
  {
    var sz, res := vm.Sbrk(r, procs[r], n, eager, procs[r] + n);
    ResizedExchanged(old(vm.S()), vm.S(), r);
    AliveResized(s0, old(vm.S()), vm.S(), r, sz, procs);
    return procs[r := sz];
  }

  method DoFault(vm: VM, r: nat, va: nat, procs: map<nat, nat>, ghost s0: Vm) returns (procs': map<nat, nat>)
    requires vm.Valid() && Alive(s0, vm.S(), procs) && r in procs
    modifies vm
    ensures vm.Valid() && Alive(s0, vm.S(), procs')
  {
    var p := vm.VmFault(r, procs[r], va, va / PGSIZE, va / PGSIZE + 1);
    ResizedExchanged(old(vm.S()), vm.S(), r);
    AliveResized(s0, old(vm.S()), vm.S(), r, procs[r], procs);
    return procs[r := procs[r]];
  }

  method DoFork(vm: VM, r: nat, procs: map<nat, nat>, trampoline: nat, trapframe: nat, ghost s0: Vm)
    returns (procs': map<nat, nat>)
    requires vm.Valid() && Alive(s0, vm.S(), procs) && r in procs && PteValid(trampoline) && PteValid(trapframe)
    modifies vm
    ensures vm.Valid() && Alive(s0, vm.S(), procs')
  {
    var q := vm.ForkMemory(r, procs[r], trampoline, trapframe);
    if q == 0 {
      AliveSame(s0, old(vm.S()), vm.S(), procs);
      return procs;
    }
    SpawnedTook(old(vm.S()), vm.S(), q);
    AliveSpawned(s0, old(vm.S()), vm.S(), q, procs[r], procs);
    return procs[q := procs[r]];
  }

  method DoExit(vm: VM, r: nat, procs: map<nat, nat>, ghost s0: Vm) returns (procs': map<nat, nat>)
    requires vm.Valid() && Alive(s0, vm.S(), procs) && r in procs
    modifies vm
    ensures vm.Valid() && Alive(s0, vm.S(), procs') && procs' == procs - {r}
  {
    vm.ProcFreePagetable(r, procs[r]);
    AliveGone(s0, old(vm.S()), vm.S(), r, procs);
    return procs - {r};
  }

  /** One act; nothing happens if there is no such process. */
  method Do(vm: VM, act: Act, procs: map<nat, nat>, trampoline: nat, trapframe: nat, ghost s0: Vm)
    returns (procs': map<nat, nat>)
    requires vm.Valid() && Alive(s0, vm.S(), procs) && PteValid(trampoline) && PteValid(trapframe)
    modifies vm
    ensures vm.Valid() && Alive(s0, vm.S(), procs')
  {
    procs' := procs;
    match act
    case Create =>
      procs' := DoCreate(vm, procs, trampoline, trapframe, s0);
    case Resize(r, n, eager) =>
      if r in procs && -0x8000_0000 <= n < 0x8000_0000 {
        procs' := DoResize(vm, r, n, eager, procs, s0);
      }
    case Fault(r, va) =>
      if r in procs {
        procs' := DoFault(vm, r, va, procs, s0);
      }
    case Fork(r) =>
      if r in procs {
        procs' := DoFork(vm, r, procs, trampoline, trapframe, s0);
      }
    case Exit(r) =>
      if r in procs {
        procs' := DoExit(vm, r, procs, s0);
      }
  }

  lemma AliveNone(s: Vm)
    requires Sound(s)
    ensures Alive(s, s, map[])
  {
    FamilyNone(s);
  }

  lemma AliveEnd(s0: Vm, s: Vm, procs: map<nat, nat>)
    requires Alive(s0, s, procs) && procs == map[]
    ensures NothingLost(s0, s)
  {
    FamilyEnd(s0, s);
  }

  method DoAll(vm: VM, acts: seq<Act>, trampoline: nat, trapframe: nat, ghost s0: Vm) returns (procs: map<nat, nat>)
    requires vm.Valid() && Alive(s0, vm.S(), map[]) && PteValid(trampoline) && PteValid(trapframe)
    modifies vm
    ensures vm.Valid() && Alive(s0, vm.S(), procs)
  {
    procs := map[];
    for i := 0 to |acts|
      invariant vm.Valid() && Alive(s0, vm.S(), procs)
    {
      procs := Do(vm, acts[i], procs, trampoline, trapframe, s0);
    }
  }

  method Pick(procs: map<nat, nat>) returns (r: nat)
    requires procs != map[]
    ensures r in procs && |procs - {r}| < |procs|
  {
    r :| r in procs;
    assert (procs - {r}).Keys == procs.Keys - {r};
  }

  method ExitAll(vm: VM, procs: map<nat, nat>, ghost s0: Vm) returns (none: map<nat, nat>)
    requires vm.Valid() && Alive(s0, vm.S(), procs)
    modifies vm
    ensures vm.Valid() && Alive(s0, vm.S(), none) && none == map[]
    decreases |procs|
  {
    if procs == map[] {
      return procs;
    }
    var r := Pick(procs);
    var rest := DoExit(vm, r, procs, s0);
    none := ExitAll(vm, rest, s0);
  }

  /** Whatever processes are made, grown, shrunk, faulted in, forked and freed, in whatever
      order and whether or not there was memory for it: when the last of them has exited,
      every page has the use it had before, and memory in use its contents. */
  method Lives(vm: VM, acts: seq<Act>, trampoline: nat, trapframe: nat)
    requires vm.Valid() && PteValid(trampoline) && PteValid(trapframe)
    modifies vm
    ensures vm.Valid() && NothingLost(old(vm.S()), vm.S())
  {
    ghost var s0 := vm.S();
    AliveNone(s0);
    var procs := DoAll(vm, acts, trampoline, trapframe, s0);
    procs := ExitAll(vm, procs, s0);
    AliveEnd(s0, vm.S(), procs);
  }
}
