/** The allocator of system call slots in src/host/sgx_hostcall_interface.c. Both operations run under
    slotslock, so each is one step for the others. */
module Slots {
  const NULL: nat := 0

  // Values of a size_t
  const W: nat := 0x1_0000_0000_0000_0000

  // How many of the first n flags are set.
  ghost function Used(flags: seq<int>, n: nat): nat
    requires n <= |flags|
  {
    if n == 0 then 0 else Used(flags, n - 1) + if flags[n - 1] != 0 then 1 else 0
  }

  lemma {:induction false} AllUsed(flags: seq<int>, n: nat)
    requires n <= |flags| && forall i :: 0 <= i < n ==> flags[i] != 0
    ensures Used(flags, n) == n
  {
    if n > 0 { AllUsed(flags, n - 1); }
  }

  lemma {:induction false} UsedBound(flags: seq<int>, n: nat)
    requires n <= |flags|
    ensures Used(flags, n) <= n
  {
    if n > 0 { UsedBound(flags, n - 1); }
  }

  lemma {:induction false} UsedUpdate(flags: seq<int>, n: nat, i: nat, v: int)
    requires n <= |flags| && i < |flags|
    ensures Used(flags[i := v], n) ==
            Used(flags, n) + (if i < n then One(v) - One(flags[i]) else 0)
  {
    if n > 0 { UsedUpdate(flags, n - 1, i, v); }
  }

  function One(v: int): int { if v != 0 then 1 else 0 }

  class Allocator {
    const maxsyscalls: nat
    const freeslots: array<int>
    const slotlthreads: array<nat>
    var nthreads: int

    /** nthreads is the number of slots in use, and a slot that is not in use has no lthread. */
    ghost predicate Valid()
      reads this, freeslots, slotlthreads
    {
      && freeslots.Length == slotlthreads.Length == maxsyscalls < W && freeslots as object != slotlthreads
      && nthreads == Used(freeslots[..], maxsyscalls)
      && forall i :: 0 <= i < maxsyscalls && freeslots[i] == 0 ==> slotlthreads[i] == NULL
    }

    // hostsyscallclient_init
    constructor (n: nat)
      requires n < W
      ensures Valid() && maxsyscalls == n && nthreads == 0 && fresh(freeslots) && fresh(slotlthreads)
      ensures forall i :: 0 <= i < n ==> freeslots[i] == 0
    {
      maxsyscalls := n;
      freeslots := new int[n](_ => 0);
      slotlthreads := new nat[n](_ => NULL);
      nthreads := 0;
      new;
      NoneUsed(freeslots[..], n);
    }

    static lemma {:induction false} NoneUsed(flags: seq<int>, n: nat)
      requires n <= |flags| && forall i :: 0 <= i < n ==> flags[i] == 0
      ensures Used(flags, n) == 0
    {
      if n > 0 { NoneUsed(flags, n - 1); }
    }

    /** allocslot: below capacity it always finds the lowest free index, which is below maxsyscalls, and takes it;
        at capacity it crashes. No slot in use is ever given out again. */
    method Alloc(lt: nat) returns (i: nat, crashed: bool)
      requires Valid()
      modifies this`nthreads, freeslots, slotlthreads
      ensures Valid() && (crashed <==> old(nthreads) >= maxsyscalls)
      ensures crashed <==> forall j :: 0 <= j < maxsyscalls ==> old(freeslots[j]) != 0
      ensures crashed ==> freeslots[..] == old(freeslots[..]) && slotlthreads[..] == old(slotlthreads[..])
      ensures !crashed ==> && i < maxsyscalls && old(freeslots[i]) == 0 && nthreads == old(nthreads) + 1
                           && (forall j :: 0 <= j < i ==> old(freeslots[j]) != 0)
                           && freeslots[..] == old(freeslots[..])[i := 1]
                           && slotlthreads[..] == old(slotlthreads[..])[i := lt]
    {
      ghost var flags := freeslots[..];
      i, crashed := 0, false;
      UsedBound(flags, maxsyscalls);
      if forall j :: 0 <= j < maxsyscalls ==> flags[j] != 0 {
        AllUsed(flags, maxsyscalls);
      } else {
        SomeFree(flags, maxsyscalls);
      }
      if nthreads >= maxsyscalls { return 0, true; }
      nthreads := nthreads + 1;
      while i < maxsyscalls && freeslots[i] != 0
        invariant i <= maxsyscalls && freeslots[..] == flags
        invariant forall j :: 0 <= j < i ==> flags[j] != 0
      {
        i := i + 1;
      }
      UsedUpdate(flags, maxsyscalls, i, 1);
      freeslots[i] := 1;
      slotlthreads[i] := lt;
      assert freeslots[..] == flags[i := 1];
    }

    static lemma {:induction false} SomeFree(flags: seq<int>, n: nat)
      requires n <= |flags| && exists j :: 0 <= j < n && flags[j] == 0
      ensures Used(flags, n) < n
    {
      UsedBound(flags, n - 1);
      if flags[n - 1] != 0 { SomeFree(flags, n - 1); }
    }

    /** freeslot: a number that is too large is ignored, and any other slot becomes free. The counter, which may
        wrap, stays the number of slots in use if and only if the slot was in use. The guard lets the number
        maxsyscalls through, and then both writes go astray, behind the arrays. */
    method Free(slotno: nat) returns (astray: bool)
      requires Valid()
      modifies this`nthreads, freeslots, slotlthreads
      ensures astray <==> slotno == maxsyscalls
      ensures Valid() <==> slotno > maxsyscalls || (slotno < maxsyscalls && old(freeslots[slotno]) != 0)
      ensures astray ==> && nthreads == (old(nthreads) - 1) % W && freeslots[..] == old(freeslots[..])
                         && slotlthreads[..] == old(slotlthreads[..])
      ensures slotno > maxsyscalls ==> && nthreads == old(nthreads) && freeslots[..] == old(freeslots[..])
                                       && slotlthreads[..] == old(slotlthreads[..])
      ensures slotno < maxsyscalls ==> && nthreads == (old(nthreads) - 1) % W
                                       && freeslots[..] == old(freeslots[..])[slotno := 0]
                                       && slotlthreads[..] == old(slotlthreads[..])[slotno := NULL]
    {
      astray := false;
      if slotno > maxsyscalls { return; }
      ghost var flags := freeslots[..];
      UsedBound(flags, maxsyscalls);
      nthreads := (nthreads - 1) % W;
      if slotno == maxsyscalls { return true; }
      UsedUpdate(flags, maxsyscalls, slotno, 0);
      slotlthreads[slotno] := NULL;
      freeslots[slotno] := 0;
      assert freeslots[..] == flags[slotno := 0];
    }
  }
}
